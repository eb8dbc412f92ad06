/**
 What the stages of the CPU allocator do, on values: which CPUs each of them takes of those that are free
 (pkg/cpuallocator/allocator.go).
 */
module Stages {
  import opened CpuSets
  import opened Sorting
  import opened Ranking
  import opened Priorities
  import opened Topology
  import opened Orders

  datatype Flags = Flags(idlePackages: bool, idleClusters: bool, cacheGroups: bool, idleCores: bool)

  const ALLOC_DEFAULT := Flags(true, true, true, true)
  const ALLOC_IDLE_CORES := Flags(false, false, false, true)

  /** CPUs to allocate from, CPUs allocated, and the number of CPUs still to allocate. */
  datatype State = State(from: CpuSet, result: CpuSet, cnt: int) {
    function Take(cset: CpuSet): State {
      State(from - cset, result + cset, cnt - |cset|)
    }
  }

  /** Only usable CPUs moved from `from` to `result`, each counted once, and never too many. */
  ghost predicate Took(topo: Topo, s: State, t: State) {
    && t.from <= s.from
    && s.from - t.from <= topo.Usable()
    && t.result == s.result + (s.from - t.from)
    && t.cnt == s.cnt - |s.from - t.from|
    && (s.cnt >= 0 ==> t.cnt >= 0)
    && (s.cnt < 0 ==> t.from == s.from)
  }

  lemma TookNothing(topo: Topo, s: State)
    ensures Took(topo, s, s)
  {
    assert s.from - s.from == {};
  }

  lemma TookMore(topo: Topo, s: State, t: State, cset: CpuSet)
    requires Took(topo, s, t)
    requires cset <= t.from && cset <= topo.Usable() && |cset| <= t.cnt
    ensures Took(topo, s, t.Take(cset))
    ensures s.from - t.Take(cset).from == (s.from - t.from) + cset
  {
    RemovePiece(s.from, t.from, cset);
  }

  lemma TookTwice(topo: Topo, s: State, t: State, u: State)
    requires Took(topo, s, t) && Took(topo, t, u)
    ensures Took(topo, s, u)
  {
    var more := t.from - u.from;
    RemovePiece(s.from, t.from, more);
    assert t.from - more == u.from;
    assert s.from - u.from == (s.from - t.from) + more;
  }

  /** A unit was taken as a whole or not touched. */
  ghost predicate Unsplit(unit: CpuSet, s: State, t: State) {
    unit <= s.from - t.from || unit !! (s.from - t.from)
  }

  /** The greedy outcome for units: whole or untouched, and what is left whole would not fit. */
  ghost predicate Greedy(unit: CpuSet, s: State, t: State) {
    Unsplit(unit, s, t) && ({} != unit <= t.from ==> |unit| > t.cnt)
  }

  /** Everything taken lies in one of the units. */
  ghost predicate TookFrom(units: seq<CpuSet>, s: State, t: State) {
    forall c :: c in s.from - t.from ==> exists k :: 0 <= k < |units| && c in units[k]
  }

  lemma TookFromAny(units: seq<CpuSet>, s: State)
    ensures TookFrom(units, s, s)
  {
  }

  /** Taking part of one of the units is taking from them. */
  lemma TookFromMore(units: seq<CpuSet>, s: State, t: State, cset: CpuSet, k: nat)
    requires TookFrom(units, s, t) && k < |units| && cset <= units[k]
    ensures TookFrom(units, s, t.Take(cset))
  {
    forall c | c in s.from - t.Take(cset).from ensures exists j :: 0 <= j < |units| && c in units[j] {
      if c in cset {
        assert c in units[k];
      } else {
        assert c in s.from - t.from;
      }
    }
  }

  lemma TookFromLonger(units: seq<CpuSet>, m: nat, n: nat, s: State, t: State)
    requires m <= n <= |units| && TookFrom(units[..m], s, t)
    ensures TookFrom(units[..n], s, t)
  {
    forall c | c in s.from - t.from ensures exists k :: 0 <= k < n && c in units[..n][k] {
      var k :| 0 <= k < m && c in units[..m][k];
      assert c in units[..n][k];
    }
  }

  lemma NothingIsSplit(s: State)
    ensures forall unit: CpuSet :: Unsplit(unit, s, s)
  {
  }

  lemma OutsideUnsplit(units: seq<CpuSet>, s: State, t: State, unit: CpuSet)
    requires TookFrom(units, s, t)
    requires forall k :: 0 <= k < |units| ==> units[k] !! unit
    ensures unit !! (s.from - t.from)
  {
    forall c | c in s.from - t.from ensures c !in unit {
      var k :| 0 <= k < |units| && c in units[k];
    }
  }

  lemma ElementsStep(s: seq<int>, n: nat)
    requires n < |s| && Distinct(s)
    ensures Elements(s[..n+1]) == Elements(s[..n]) + {s[n]}
    ensures s[n] !in Elements(s[..n])
  {
    assert s[..n+1] == s[..n] + [s[n]];
  }

  /** CPUs in the first n units. */
  ghost function Total(units: seq<CpuSet>, n: nat): nat
    requires n <= |units|
  {
    if n == 0 then 0 else Total(units, n - 1) + |units[n-1]|
  }

  lemma TotalOfNone(units: seq<CpuSet>)
    ensures Total(units, 0) == 0
  {
  }

  lemma TotalNext(units: seq<CpuSet>, n: nat)
    requires n < |units|
    ensures Total(units, n + 1) == Total(units, n) + |units[n]|
  {
  }

  lemma {:induction false} TotalGrows(units: seq<CpuSet>, m: nat, n: nat)
    requires m <= n <= |units|
    ensures Total(units, m) <= Total(units, n)
  {
    if m < n {
      TotalGrows(units, m, n - 1);
    }
  }

  datatype Verdict = Prefer | Usable | Ignore

  /** A package is considered by its online CPUs of the preferred priority. */
  function PackageCpus(topo: Topo, prefer: CpuPriority, id: int): CpuSet {
    var cset := topo.PkgSet(id) - topo.offline;
    if prefer < NONE then cset * topo.prios.Of(prefer) else cset
  }

  /** The first n threads are taken. */
  ghost predicate IsPrefixTaken(threads: seq<int>, n: nat, s: State, t: State)
    requires n <= |threads|
  {
    t.from == s.from - Elements(threads[..n])
  }

  lemma NonePicked(threads: seq<int>, cpus: CpuSet)
    ensures cpus - Elements(threads[..0]) == cpus
  {
  }

  /** Of the first n units nothing is left, all others are whole. */
  ghost predicate IsPrefixGone(units: seq<CpuSet>, n: nat, left: CpuSet) {
    && n <= |units| && (forall k :: 0 <= k < n ==> units[k] !! left)
    && (forall k :: n <= k < |units| ==> units[k] <= left)
  }

  lemma NoneGone(units: seq<CpuSet>, left: CpuSet)
    requires forall k :: 0 <= k < |units| ==> units[k] <= left
    ensures IsPrefixGone(units, 0, left)
  {
  }

  lemma PrefixGoneNext(units: seq<CpuSet>, i: nat, left: CpuSet)
    requires i < |units| && PairwiseDisjoint(units) && IsPrefixGone(units, i, left)
    ensures IsPrefixGone(units, i + 1, left - units[i])
  {
  }

  /**
   The first unit alone if it is a perfect fit, nothing if it is too large, else units in order up to
   the first that does not fit any more.
   */
  ghost predicate TookTightest(units: seq<CpuSet>, n: nat, s: State, t: State) {
    && units != [] && n <= |units|
    && if |units[0]| == s.cnt then n == 1 && t.cnt == 0 && t.from == s.from - units[0]
       else if |units[0]| > s.cnt then n == 0 && t == s
       else IsPrefixGone(units, n, t.from) && TookFrom(units, s, t) && (n < |units| ==> t.cnt == 0 || t.cnt < |units[n]|)
  }

  /** The least number of leading units that have enough CPUs, or all of them. */
  ghost predicate IsEnough(units: seq<CpuSet>, n: nat, cnt: int) {
    && n <= |units|
    && (n > 0 ==> Total(units, n - 1) < cnt) && (n < |units| ==> Total(units, n) >= cnt)
  }

  lemma UnitApart(units: seq<CpuSet>, i: nat)
    requires i < |units| && PairwiseDisjoint(units)
    ensures forall k :: i < k < |units| ==> units[i] !! units[k]
  {
  }

  lemma RestLeft(units: seq<CpuSet>, i: nat, from: CpuSet)
    requires i < |units| && PairwiseDisjoint(units) && forall k :: i <= k < |units| ==> units[k] <= from
    ensures forall k :: i + 1 <= k < |units| ==> units[k] <= from - units[i]
  {
    UnitApart(units, i);
  }

  /** Units before the next one stay incomplete and those after it whole. */
  lemma UnitsLeft(units: seq<CpuSet>, i: nat, from: CpuSet, use: CpuSet)
    requires i < |units| && PairwiseDisjoint(units) && {} != use <= units[i]
    requires forall k :: 0 <= k < i ==> !(units[k] <= from)
    requires forall k :: i <= k < |units| ==> units[k] <= from
    ensures forall k :: 0 <= k < i + 1 ==> !(units[k] <= from - use)
    ensures forall k :: i + 1 <= k < |units| ==> units[k] <= from - use
  {
    UnitApart(units, i);
    forall k | 0 <= k < i + 1 ensures !(units[k] <= from - use) {
      if k < i {
        var c := Missing(units[k], from);
      } else {
        var c := Pick(use);
      }
    }
  }

  /** Indices, below n, of units by their size. */
  ghost predicate BySize(bySize: map<int, seq<int>>, units: seq<CpuSet>, n: nat)
    requires n <= |units|
  {
    && (forall size :: size in bySize ==>
          && bySize[size] != []
          && forall j :: 0 <= j < |bySize[size]| ==> bySize[size][0] <= bySize[size][j] < n && 0 <= bySize[size][j] && |units[bySize[size][j]]| == size)
    && (forall k :: 0 <= k < n ==> |units[k]| in bySize && k in bySize[|units[k]|])
  }

  /** How many leading groups are of a package. */
  ghost function Leading(used: seq<CacheGroup>, pkg: int): (n: nat)
    ensures n <= |used| && forall i :: 0 <= i < n ==> used[i].pkg == pkg
    ensures n < |used| ==> used[n].pkg != pkg
  {
    if used == [] || used[0].pkg != pkg then 0 else 1 + Leading(used[1..], pkg)
  }

  lemma LeadingIs(used: seq<CacheGroup>, pkg: int, n: nat)
    requires n <= |used| && (forall i :: 0 <= i < n ==> used[i].pkg == pkg) && (n < |used| ==> used[n].pkg != pkg)
    ensures Leading(used, pkg) == n
  {
  }

  lemma NoSizes(units: seq<CpuSet>)
    ensures BySize(map[], units, 0)
  {
  }

  lemma BySizeMore(bySize: map<int, seq<int>>, units: seq<CpuSet>, i: nat, same: seq<int>)
    requires i < |units| && BySize(bySize, units, i)
    requires same == (if |units[i]| in bySize then bySize[|units[i]|] else []) + [i]
    ensures BySize(bySize[|units[i]| := same], units, i + 1)
  {
    assert same[|same|-1] == i;
    forall k | 0 <= k < i && |units[k]| == |units[i]| ensures k in same {
      assert k in bySize[|units[k]|];
    }
  }

  /** One of the first n groups has just the wanted size, or together they have enough. */
  ghost predicate CanComplete(units: seq<CpuSet>, n: nat, cnt: int)
    requires n <= |units|
  {
    (exists k :: 0 <= k < n && |units[k]| == cnt) || Total(units, n) >= cnt
  }

  /** The free CPUs of each group. */
  function UnitsIn(groups: seq<CacheGroup>, cpus: map<CacheGroup, CpuSet>): seq<CpuSet>
    requires forall g :: g in groups ==> g in cpus
  {
    seq(|groups|, i requires 0 <= i < |groups| => cpus[groups[i]])
  }

  /** The package of the best group. */
  function ChosenPackage(idle: seq<CacheGroup>, used: seq<CacheGroup>): int {
    if idle != [] then idle[0].pkg else if used != [] then used[0].pkg else 0
  }

  /** CPUs that groups of the package have, idle ones and used ones. */
  function PackageTotal(idle: seq<CacheGroup>, used: seq<CacheGroup>, ctx: GroupContext): int {
    (if idle != [] then Get(ctx.preferPkg, ChosenPackage(idle, used)) else 0) +
    (if idle != [] || used != [] then Get(ctx.usablePkg, ChosenPackage(idle, used)) else 0)
  }

  ghost predicate AreOfPackage(topo: Topo, cpus: CpuSet, pkg: int) {
    forall c :: c in cpus ==> exists g :: g in topo.cacheGroups && g.pkg == pkg && c in g.cpus
  }

  /** Idle groups of other packages are touched if and only if those of the chosen one do not suffice. */
  lemma NeededInPackage(idle: seq<CacheGroup>, units: seq<CpuSet>, pkg: int, n: nat, cnt: int)
    requires |units| == |idle| && IsEnough(units, n, cnt)
    ensures n <= Leading(idle, pkg) <==> Leading(idle, pkg) == |idle| || Total(units, Leading(idle, pkg)) >= cnt
  {
    var lead := Leading(idle, pkg);
    if n <= lead {
      TotalGrows(units, n, lead);
    } else {
      TotalGrows(units, lead, n - 1);
    }
  }

  /** What the allocator looks at: CPUs to allocate from, CPUs allocated and how many are wanted, for a preference. */
  datatype View = View(topo: Topo, prefer: CpuPriority, from: CpuSet, result: CpuSet, cnt: int) {
    ghost function S(): State {
      State(from, result, cnt)
    }

    /** Units before i had their turn, the others are still free. */
    ghost predicate Taking(units: seq<CpuSet>, i: nat, s: State, t: State)
      requires i <= |units|
    {
      && Took(topo, s, t) && TookFrom(units, s, t)
      && (forall k :: 0 <= k < i ==> Unsplit(units[k], s, t))
      && (forall k :: i <= k < |units| ==> units[k] <= t.from)
    }

    lemma TakingOne(units: seq<CpuSet>, i: nat, s: State, t: State)
      requires i < |units| && PairwiseDisjoint(units) && Taking(units, i, s, t)
      requires units[i] <= topo.Usable() && |units[i]| <= t.cnt
      ensures Taking(units, i + 1, s, t.Take(units[i]))
    {
      TookMore(topo, s, t, units[i]);
      var u := t.Take(units[i]);
      forall k | 0 <= k < i ensures Unsplit(units[k], s, u) {
        assert units[k] !! units[i];
        assert Unsplit(units[k], s, t);
      }
      forall c | c in s.from - u.from ensures exists k :: 0 <= k < |units| && c in units[k] {
        assert c in s.from - t.from || c in units[i];
      }
    }

    lemma TakingNothing(units: seq<CpuSet>, s: State)
      requires forall k :: 0 <= k < |units| ==> units[k] <= s.from
      ensures Taking(units, 0, s, s)
    {
      TookNothing(topo, s);
    }

    lemma TakingDone(units: seq<CpuSet>, i: nat, s: State, t: State)
      requires i <= |units| && Taking(units, i, s, t)
      ensures Took(topo, s, t) && TookFrom(units, s, t)
      ensures forall k :: 0 <= k < |units| ==> Unsplit(units[k], s, t)
    {
      forall k | i <= k < |units| ensures Unsplit(units[k], s, t) {
        assert units[k] !! (s.from - t.from);
      }
    }

    ghost predicate Fitting(units: seq<CpuSet>, i: nat, s: State, t: State)
      requires i <= |units|
    {
      && Taking(units, i, s, t)
      && (forall k :: 0 <= k < i && {} != units[k] <= t.from ==> |units[k]| > t.cnt)
      && TookFrom(units[..i], s, t) && InTurn(units, i, s, t)
    }

    lemma FittingNothing(units: seq<CpuSet>, s: State)
      requires forall k :: 0 <= k < |units| ==> units[k] <= s.from
      ensures Fitting(units, 0, s, s)
    {
      TakingNothing(units, s);
    }

    lemma FittingTake(units: seq<CpuSet>, i: nat, s: State, t: State)
      requires i < |units| && PairwiseDisjoint(units) && Fitting(units, i, s, t)
      requires units[i] <= topo.Usable() && |units[i]| <= t.cnt
      ensures Fitting(units, i + 1, s, t.Take(units[i]))
    {
      hide InTurn, TookFrom;
      TakingOne(units, i, s, t);
      InTurnTake(topo, units, i, s, t);
      TookFromLonger(units, i, i + 1, s, t);
      TookFromMore(units[..i+1], s, t, units[i], i);
    }

    lemma FittingSkip(units: seq<CpuSet>, i: nat, s: State, t: State)
      requires i < |units| && Fitting(units, i, s, t) && |units[i]| > t.cnt
      ensures Fitting(units, i + 1, s, t)
    {
      hide InTurn, TookFrom;
      assert units[i] !! (s.from - t.from);
      InTurnSkip(topo, units, i, s, t);
      TookFromLonger(units, i, i + 1, s, t);
    }

    lemma FittingDone(units: seq<CpuSet>, i: nat, s: State, t: State)
      requires i <= |units| && PairwiseDisjoint(units) && Fitting(units, i, s, t) && (t.cnt == 0 || i == |units|)
      ensures Took(topo, s, t) && TookFrom(units, s, t) && InTurn(units, |units|, s, t)
      ensures forall k :: 0 <= k < |units| ==> Greedy(units[k], s, t)
    {
      hide InTurn, TookFrom;
      InTurnDone(topo, units, i, s, t);
      TakingDone(units, i, s, t);
      forall k | i <= k < |units| && units[k] != {} ensures |units[k]| > t.cnt {
        assert |units[k]| != 0;
      }
    }

    lemma PackageCpusApart(p: int, q: int)
      requires topo.PackagesPartition() && p in topo.packageIds && q in topo.packageIds && p != q
      ensures PackageCpus(topo, prefer, p) !! PackageCpus(topo, prefer, q)
    {
      assert topo.PkgSet(p) !! topo.PkgSet(q);
    }

    lemma PackageCpusUsable(p: int)
      requires topo.PackagesPartition() && p in topo.packageIds
      ensures PackageCpus(topo, prefer, p) <= topo.Usable()
    {
      forall c | c in PackageCpus(topo, prefer, p) ensures c in topo.Usable() {
        assert c in topo.PkgSet(p);
      }
    }

    lemma PackagesGreedy(pkgs: seq<int>, units: seq<CpuSet>, s: State, t: State, p: int)
      requires topo.PackagesPartition() && p in topo.packageIds
      requires |units| == |pkgs| && forall k :: 0 <= k < |pkgs| ==> units[k] == PackageCpus(topo, prefer, pkgs[k])
      requires forall q :: q in pkgs <==> q in topo.packageIds && PackageCpus(topo, prefer, q) <= s.from
      requires TookFrom(units, s, t) && t.from <= s.from
      requires forall k :: 0 <= k < |units| ==> Greedy(units[k], s, t)
      ensures Greedy(PackageCpus(topo, prefer, p), s, t)
    {
      if p in pkgs {
        var k :| 0 <= k < |pkgs| && pkgs[k] == p;
        assert Greedy(units[k], s, t);
      } else {
        forall k | 0 <= k < |units| ensures units[k] !! PackageCpus(topo, prefer, p) {
          PackageCpusApart(pkgs[k], p);
        }
        OutsideUnsplit(units, s, t, PackageCpus(topo, prefer, p));
      }
    }

    lemma PackagesInTurn(pkgs: seq<int>, units: seq<CpuSet>, s: State, t: State)
      requires topo.PackagesPartition() && Distinct(pkgs) && Ordered(pkgs, PackageCmp(topo, prefer))
      requires |units| == |pkgs| && forall k :: 0 <= k < |pkgs| ==> units[k] == PackageCpus(topo, prefer, pkgs[k])
      requires forall q :: q in pkgs <==> q in topo.packageIds && PackageCpus(topo, prefer, q) <= s.from
      requires Took(topo, s, t) && TookFrom(units, s, t) && InTurn(units, |units|, s, t)
      requires forall p :: p in topo.packageIds ==> Greedy(PackageCpus(topo, prefer, p), s, t)
      ensures PackageStage(topo, prefer, s, t)
    {
      hide Strict, UnitsApart, UnitStage, InTurn, TookFrom, Greedy, Took, PackageCmp, PackageCpus, Ordered;
      PackagesOrdered(topo, prefer);
      forall k | 0 <= k < |pkgs| ensures pkgs[k] in Packages(topo, prefer) && units[k] == Packages(topo, prefer)[pkgs[k]] {
        assert pkgs[k] in pkgs;
      }
      SortedUnitStage(Packages(topo, prefer), PackageCmp(topo, prefer), pkgs, units, s, t);
    }

    lemma CoresInTurn(cores: seq<int>, units: seq<CpuSet>, s: State, t: State)
      requires topo.CoresPartition() && AreIdleCores(cores, s.from) && Ordered(cores, CoreCmp(topo, prefer))
      requires |units| == |cores| && forall k :: 0 <= k < |cores| ==> units[k] == topo.OnlineCore(cores[k])
      requires Took(topo, s, t) && TookFrom(units, s, t) && InTurn(units, |units|, s, t)
      requires forall c :: c in topo.Usable() ==> Greedy(topo.OnlineCore(c), s, t)
      ensures CoreStage(topo, prefer, s, t)
    {
      hide Strict, UnitsApart, UnitStage, InTurn, TookFrom, Greedy, Took, CoreCmp, Ordered;
      CoresOrdered(topo, prefer);
      forall k | 0 <= k < |cores| ensures cores[k] in Cores(topo) && units[k] == Cores(topo)[cores[k]] {
        assert cores[k] in cores;
      }
      forall c | c in Cores(topo) ensures Greedy(Cores(topo)[c], s, t) {
        assert c in topo.Usable();
      }
      SortedUnitStage(Cores(topo), CoreCmp(topo, prefer), cores, units, s, t);
    }

    lemma TookAllOrEnough(s: State, t: State)
      requires Took(topo, s, t)
      requires t.cnt <= 0 || t.from * topo.Usable() == {}
      ensures s.cnt >= 0 ==> (t.cnt == 0 <==> s.cnt <= |s.from * topo.Usable()|)
      ensures t.cnt > 0 ==> t.from == s.from - topo.Usable()
      ensures s.cnt < 0 ==> t == s
    {
      var taken := s.from - t.from;
      assert taken <= s.from * topo.Usable();
      SubsetSize(taken, s.from * topo.Usable());
      if s.cnt < 0 {
        assert taken == {};
      }
      if t.cnt > 0 {
        assert taken == s.from * topo.Usable();
      }
    }

    /** The first threads of all cores whose online threads are all free. */
    ghost predicate AreIdleCores(cores: seq<int>, free: CpuSet) {
      && Distinct(cores)
      && (forall c :: c in cores <==> c in topo.cpuIds && topo.OnlineCore(c) <= free && IsMin(topo.OnlineCore(c), c))
    }

    lemma CoresApart(c: int, d: int)
      requires topo.CoresPartition() && c in topo.Usable() && d in topo.Usable()
      ensures topo.OnlineCore(c) == topo.OnlineCore(d) || topo.OnlineCore(c) !! topo.OnlineCore(d)
      ensures topo.OnlineCore(c) <= topo.Usable() && c in topo.OnlineCore(c)
    {
      if !(topo.OnlineCore(c) !! topo.OnlineCore(d)) {
        var x := CommonMember(topo.OnlineCore(c), topo.OnlineCore(d));
        assert topo.CoreSet(x) == topo.CoreSet(c) == topo.CoreSet(d);
      }
      forall x | x in topo.OnlineCore(c) ensures x in topo.Usable() {
      }
    }

    lemma CoresGreedy(cores: seq<int>, units: seq<CpuSet>, s: State, t: State, c: int)
      requires topo.CoresPartition() && c in topo.Usable()
      requires |units| == |cores| && forall k :: 0 <= k < |cores| ==> units[k] == topo.OnlineCore(cores[k])
      requires AreIdleCores(cores, s.from)
      requires TookFrom(units, s, t) && t.from <= s.from
      requires forall k :: 0 <= k < |units| ==> Greedy(units[k], s, t)
      ensures Greedy(topo.OnlineCore(c), s, t)
    {
      CoresApart(c, c);
      var first := MinExists(topo.OnlineCore(c));
      assert topo.OnlineCore(first) == topo.OnlineCore(c);
      if first in cores {
        var k :| 0 <= k < |cores| && cores[k] == first;
        assert Greedy(units[k], s, t);
      } else {
        forall k | 0 <= k < |units| ensures units[k] !! topo.OnlineCore(c) {
          assert cores[k] in cores;
          CoresApart(cores[k], c);
        }
        OutsideUnsplit(units, s, t, topo.OnlineCore(c));
      }
    }

    lemma CoreUnits(cores: seq<int>, units: seq<CpuSet>)
      requires topo.CoresPartition() && AreIdleCores(cores, from)
      requires |units| == |cores| && forall k :: 0 <= k < |cores| ==> units[k] == topo.OnlineCore(cores[k])
      ensures PairwiseDisjoint(units)
      ensures forall k :: 0 <= k < |units| ==> units[k] <= from && units[k] <= topo.Usable()
    {
      forall k | 0 <= k < |units| ensures units[k] <= from && units[k] <= topo.Usable() {
        assert cores[k] in cores;
        CoresApart(cores[k], cores[k]);
      }
      forall i, j | 0 <= i < j < |units| ensures units[i] !! units[j] {
        assert cores[i] in cores && cores[j] in cores;
        CoresApart(cores[i], cores[j]);
      }
    }

    /** The package lost some threads and still has free ones. */
    ghost predicate PackageSplit(p: int, s: State, t: State) {
      topo.PkgSet(p) * (s.from - t.from) != {} && topo.PkgSet(p) * t.from * topo.Usable() != {}
    }

    /** The threads are all the free usable CPUs. */
    ghost predicate AreFreeThreads(threads: seq<int>, s: State) {
      Distinct(threads) && forall c :: c in threads <==> c in s.from && c in topo.Usable()
    }

    lemma OnePackageSplit(ctx: ThreadContext, threads: seq<int>, n: nat, s: State, t: State, p: int, q: int)
      requires topo.PackagesPartition() && p in topo.packageIds && q in topo.packageIds
      requires ctx.topo == topo && Ordered(threads, ctx.Cmp())
      requires n <= |threads| && AreFreeThreads(threads, s) && IsPrefixTaken(threads, n, s, t)
      requires PackageSplit(p, s, t) && PackageSplit(q, s, t)
      ensures p == q
    {
      hide Ordered, View.AreFreeThreads, IsPrefixTaken, View.PackageSplit, Topo.PackagesPartition, ThreadContext.Cmp;
      var i, j := SplitWitness(threads, n, s, t, p);
      var k, l := SplitWitness(threads, n, s, t, q);
      if i < k {
        ctx.ContiguousWhenSorted(threads, i, k, j);
      } else if k < i {
        ctx.ContiguousWhenSorted(threads, k, i, l);
      }
    }

    lemma SplitWitness(threads: seq<int>, n: nat, s: State, t: State, p: int) returns (i: nat, j: nat)
      requires topo.PackagesPartition() && p in topo.packageIds
      requires n <= |threads| && AreFreeThreads(threads, s) && IsPrefixTaken(threads, n, s, t)
      requires PackageSplit(p, s, t)
      ensures i < n <= j < |threads|
      ensures topo.PackageOf(threads[i]) == p == topo.PackageOf(threads[j])
    {
      var a := Pick(topo.PkgSet(p) * (s.from - t.from));
      var b := Pick(topo.PkgSet(p) * t.from * topo.Usable());
      assert a in threads[..n];
      i :| 0 <= i < n && threads[i] == a;
      assert b in threads && b !in threads[..n] && threads == threads[..n] + threads[n..];
      j :| n <= j < |threads| && threads[j] == b;
      PackageOfMember(p, a);
      PackageOfMember(p, b);
    }

    lemma PackageOfMember(p: int, c: int)
      requires topo.PackagesPartition() && p in topo.packageIds
      requires c in topo.PkgSet(p) && c in topo.Usable()
      ensures topo.PackageOf(c) == p
    {
      assert c in topo.PkgSet(topo.PackageOf(c));
    }

    lemma NothingLeft(threads: seq<int>, s: State, t: State)
      requires AreFreeThreads(threads, s) && IsPrefixTaken(threads, |threads|, s, t)
      ensures t.from * topo.Usable() == {}
    {
      assert threads[..|threads|] == threads;
      if t.from * topo.Usable() != {} {
        var c := Pick(t.from * topo.Usable());
        assert false;
      }
    }

    lemma FreeThread(threads: seq<int>, n: nat, s: State)
      requires n < |threads| && AreFreeThreads(threads, s)
      ensures threads[n] in s.from && threads[n] in topo.Usable()
    {
      var c := threads[n];
      assert c in threads;
    }

    lemma ThreadStep(threads: seq<int>, n: nat, s: State, t: State)
      requires n < |threads| && Distinct(threads) && IsPrefixTaken(threads, n, s, t)
      requires threads[n] in s.from && threads[n] in topo.Usable()
      requires Took(topo, s, t) && t.cnt > 0
      ensures Took(topo, s, t.Take({threads[n]}))
      ensures IsPrefixTaken(threads, n + 1, s, t.Take({threads[n]}))
    {
      ElementsStep(threads, n);
      TookMore(topo, s, t, {threads[n]});
    }

    /** E-cores are for low priority requests only, P-cores for all others. */
    predicate KindFits(kind: CoreKind) {
      topo.kindCount <= 1 || (prefer == LOW <==> kind.EfficientCore?)
    }

    function ClusterCpus(c: Cluster): CpuSet {
      c.cpus - topo.offline
    }

    predicate PicksCluster(c: Cluster)
    {
      KindFits(c.kind) && {} != ClusterCpus(c) <= from
    }

    /** CPUs in picked ones of the first n clusters of a package, or of a die of it. */
    ghost function ClusterTotal(n: nat, pkg: int, die: int, wholePkg: bool): int
      requires n <= |topo.clusters|
    {
      if n == 0 then 0
      else
        var c := topo.clusters[n-1];
        ClusterTotal(n - 1, pkg, die, wholePkg) +
        if PicksCluster(c) && c.pkg == pkg && (wholePkg || c.die == die) then |ClusterCpus(c)| else 0
    }

    ghost predicate CountsClusters(ctx: ClusterContext, n: nat)
      requires n <= |topo.clusters|
    {
      && (forall p :: Get(ctx.pkgCnt, p) == ClusterTotal(n, p, 0, true))
      && (forall p, d :: Get(ctx.dieCnt, (p, d)) == ClusterTotal(n, p, d, false))
    }

    lemma DistinctClusters()
      requires topo.ClustersDisjoint()
      ensures Distinct(topo.clusters)
    {
      forall i, j | 0 <= i < j < |topo.clusters| ensures topo.clusters[i] != topo.clusters[j] {
        assert topo.clusters[i].cpus !! topo.clusters[j].cpus;
        var x := Pick(topo.clusters[i].cpus);
      }
    }

    lemma CountsClustersStep(ctx: ClusterContext, next: ClusterContext, n: nat)
      requires n < |topo.clusters| && CountsClusters(ctx, n)
      requires var c := topo.clusters[n];
               if PicksCluster(c)
               then next.pkgCnt == Add(ctx.pkgCnt, c.pkg, |ClusterCpus(c)|) &&
                    next.dieCnt == Add(ctx.dieCnt, (c.pkg, c.die), |ClusterCpus(c)|)
               else next.pkgCnt == ctx.pkgCnt && next.dieCnt == ctx.dieCnt
      ensures CountsClusters(next, n + 1)
    {
      forall p ensures Get(next.pkgCnt, p) == ClusterTotal(n + 1, p, 0, true) {
        assert Get(ctx.pkgCnt, p) == ClusterTotal(n, p, 0, true);
      }
      forall p, d ensures Get(next.dieCnt, (p, d)) == ClusterTotal(n + 1, p, d, false) {
        assert Get(ctx.dieCnt, (p, d)) == ClusterTotal(n, p, d, false);
      }
    }

    lemma ClustersApart(c: Cluster, d: Cluster)
      requires topo.ClustersDisjoint() && c in topo.clusters && d in topo.clusters && c != d
      ensures ClusterCpus(c) !! ClusterCpus(d)
      ensures ClusterCpus(c) <= topo.Usable()
    {
      var i :| 0 <= i < |topo.clusters| && topo.clusters[i] == c;
      var j :| 0 <= j < |topo.clusters| && topo.clusters[j] == d;
      assert topo.clusters[i].cpus !! topo.clusters[j].cpus;
    }

    lemma ClusterUnits(clusters: seq<Cluster>, units: seq<CpuSet>)
      requires topo.ClustersDisjoint() && Distinct(clusters)
      requires |units| == |clusters| && forall k :: 0 <= k < |units| ==> units[k] == ClusterCpus(clusters[k])
      requires forall c :: c in clusters <==> c in topo.clusters && PicksCluster(c)
      ensures PairwiseDisjoint(units)
      ensures forall k :: 0 <= k < |units| ==> units[k] <= from && units[k] <= topo.Usable()
    {
      forall k | 0 <= k < |units| ensures units[k] <= from && units[k] <= topo.Usable() {
        assert clusters[k] in clusters;
        var i :| 0 <= i < |topo.clusters| && topo.clusters[i] == clusters[k];
      }
      forall i, j | 0 <= i < j < |units| ensures units[i] !! units[j] {
        assert clusters[i] in clusters && clusters[j] in clusters;
        ClustersApart(clusters[i], clusters[j]);
      }
    }

    lemma ClustersUnsplit(clusters: seq<Cluster>, units: seq<CpuSet>, s: State, t: State, c: Cluster)
      requires topo.ClustersDisjoint() && c in topo.clusters
      requires |units| == |clusters| && forall k :: 0 <= k < |units| ==> units[k] == ClusterCpus(clusters[k])
      requires forall d :: d in clusters ==> d in topo.clusters
      requires TookFrom(units, s, t)
      requires forall k :: 0 <= k < |units| ==> Unsplit(units[k], s, t)
      ensures Unsplit(ClusterCpus(c), s, t)
    {
      if c in clusters {
        var k :| 0 <= k < |clusters| && clusters[k] == c;
        assert Unsplit(units[k], s, t);
      } else {
        forall k | 0 <= k < |units| ensures units[k] !! ClusterCpus(c) {
          assert clusters[k] in clusters;
          ClustersApart(c, clusters[k]);
        }
        OutsideUnsplit(units, s, t, ClusterCpus(c));
      }
    }

    /** The idle clusters of the right kind in their order. */
    ghost predicate ClustersSorted(clusters: seq<Cluster>, ctx: ClusterContext) {
      && Distinct(clusters) && Ordered(clusters, ctx.Cmp())
      && (forall c :: c in clusters <==> c in topo.clusters && PicksCluster(c))
      && (forall c :: c in clusters ==> c in ctx.cpus && ctx.cpus[c] == ClusterCpus(c))
      && ctx.cnt == cnt && CountsClusters(ctx, |topo.clusters|)
    }

    function ClusterUnitsOf(clusters: seq<Cluster>): seq<CpuSet> {
      seq(|clusters|, i requires 0 <= i < |clusters| => ClusterCpus(clusters[i]))
    }

    function GroupCpus(g: CacheGroup): CpuSet
    {
      (g.cpus - topo.offline) * from
    }

    /** Idle groups are preferred, groups with some free CPUs are usable. */
    function VerdictOf(g: CacheGroup): Verdict
    {
      if !KindFits(g.kind) || GroupCpus(g) == {} then Ignore
      else if GroupCpus(g) == g.cpus - topo.offline then Prefer
      else Usable
    }

    /** CPUs in those of the first n groups of a package, or of a die of it, that have the verdict. */
    ghost function GroupTotal(n: nat, verdict: Verdict, pkg: int, die: int, wholePkg: bool): int
      requires n <= |topo.cacheGroups|
    {
      if n == 0 then 0
      else
        var g := topo.cacheGroups[n-1];
        GroupTotal(n - 1, verdict, pkg, die, wholePkg) +
        if VerdictOf(g) == verdict && g.pkg == pkg && (wholePkg || g.die == die) then |GroupCpus(g)| else 0
    }

    ghost predicate CountsGroups(pkgCnt: map<int, int>, dieCnt: map<(int, int), int>, verdict: Verdict, n: nat)
      requires n <= |topo.cacheGroups|
    {
      && (forall p :: Get(pkgCnt, p) == GroupTotal(n, verdict, p, 0, true))
      && (forall p, d :: Get(dieCnt, (p, d)) == GroupTotal(n, verdict, p, d, false))
    }

    ghost predicate PicksGroups(groups: seq<CacheGroup>, cpus: map<CacheGroup, CpuSet>, verdict: Verdict, n: nat)
      requires n <= |topo.cacheGroups|
    {
      && Distinct(groups)
      && (forall g :: g in groups <==> g in topo.cacheGroups[..n] && VerdictOf(g) == verdict)
      && (forall g :: g in groups ==> g in cpus && cpus[g] == GroupCpus(g))
    }

    lemma DistinctGroups()
      requires topo.CacheGroupsDisjoint()
      ensures Distinct(topo.cacheGroups)
    {
      forall i, j | 0 <= i < j < |topo.cacheGroups| ensures topo.cacheGroups[i] != topo.cacheGroups[j] {
        assert topo.cacheGroups[i].cpus !! topo.cacheGroups[j].cpus;
        var x := Pick(topo.cacheGroups[i].cpus);
      }
    }

    lemma PicksStep(groups: seq<CacheGroup>, cpus: map<CacheGroup, CpuSet>, verdict: Verdict, n: nat)
      requires n < |topo.cacheGroups| && Distinct(topo.cacheGroups) && PicksGroups(groups, cpus, verdict, n)
      ensures var g := topo.cacheGroups[n];
              if VerdictOf(g) == verdict
              then PicksGroups(groups + [g], cpus[g := GroupCpus(g)], verdict, n + 1)
              else PicksGroups(groups, cpus, verdict, n + 1) &&
                   PicksGroups(groups, cpus[g := GroupCpus(g)], verdict, n + 1)
    {
      var g := topo.cacheGroups[n];
      assert topo.cacheGroups[..n+1] == topo.cacheGroups[..n] + [g] && g !in topo.cacheGroups[..n];
    }

    lemma CountsStep(pkgCnt: map<int, int>, dieCnt: map<(int, int), int>, verdict: Verdict, n: nat)
      requires n < |topo.cacheGroups| && CountsGroups(pkgCnt, dieCnt, verdict, n)
      ensures var g := topo.cacheGroups[n];
              if VerdictOf(g) == verdict
              then CountsGroups(Add(pkgCnt, g.pkg, |GroupCpus(g)|), Add(dieCnt, (g.pkg, g.die), |GroupCpus(g)|),
                                verdict, n + 1)
              else CountsGroups(pkgCnt, dieCnt, verdict, n + 1)
    {
      var g := topo.cacheGroups[n];
      if VerdictOf(g) == verdict {
        var pkgCnt', dieCnt' := Add(pkgCnt, g.pkg, |GroupCpus(g)|), Add(dieCnt, (g.pkg, g.die), |GroupCpus(g)|);
        forall p ensures Get(pkgCnt', p) == GroupTotal(n + 1, verdict, p, 0, true) {
          assert Get(pkgCnt, p) == GroupTotal(n, verdict, p, 0, true);
        }
        forall p, d ensures Get(dieCnt', (p, d)) == GroupTotal(n + 1, verdict, p, d, false) {
          assert Get(dieCnt, (p, d)) == GroupTotal(n, verdict, p, d, false);
        }
      } else {
        forall p ensures Get(pkgCnt, p) == GroupTotal(n + 1, verdict, p, 0, true) {
          assert Get(pkgCnt, p) == GroupTotal(n, verdict, p, 0, true);
        }
        forall p, d ensures Get(dieCnt, (p, d)) == GroupTotal(n + 1, verdict, p, d, false) {
          assert Get(dieCnt, (p, d)) == GroupTotal(n, verdict, p, d, false);
        }
      }
    }

    lemma NoGroupsYet()
      ensures forall verdict :: PicksGroups([], map[], verdict, 0) && CountsGroups(map[], map[], verdict, 0)
    {
    }

    /** The first i units have had their turn: all of them were needed and lost CPUs, the others are whole. */
    ghost predicate TookUpTo(units: seq<CpuSet>, i: nat, start: State, s: State)
      requires i <= |units|
    {
      && Took(topo, start, s) && TookFrom(units[..i], start, s)
      && s.cnt == (if Total(units, i) >= start.cnt then 0 else start.cnt - Total(units, i))
      && (i > 0 ==> Total(units, i - 1) < start.cnt)
      && (forall k :: 0 <= k < i ==> !(units[k] <= s.from))
      && (forall k :: i <= k < |units| ==> units[k] <= s.from)
    }

    lemma TookNextUnit(units: seq<CpuSet>, i: nat, start: State, s: State, use: CpuSet)
      requires i < |units| && PairwiseDisjoint(units) && TookUpTo(units, i, start, s) && s.cnt > 0
      requires use <= units[i] <= topo.Usable() && use != {} && |use| == if s.cnt < |units[i]| then s.cnt else |units[i]|
      ensures TookUpTo(units, i + 1, start, s.Take(use))
    {
      hide Took, TookFrom, PairwiseDisjoint, Total, Topo.Usable;
      TookFromLonger(units, i, i + 1, start, s);
      assert units[..i+1][i] == units[i];
      TookFromMore(units[..i+1], start, s, use, i);
      TookMore(topo, start, s, use);
      TotalNext(units, i);
      UnitsLeft(units, i, s.from, use);
    }

    lemma GroupsApart(g: CacheGroup, h: CacheGroup)
      requires topo.CacheGroupsDisjoint() && g in topo.cacheGroups && h in topo.cacheGroups && g != h
      ensures GroupCpus(g) !! GroupCpus(h)
    {
      var i :| 0 <= i < |topo.cacheGroups| && topo.cacheGroups[i] == g;
      var j :| 0 <= j < |topo.cacheGroups| && topo.cacheGroups[j] == h;
      assert topo.cacheGroups[i].cpus !! topo.cacheGroups[j].cpus;
    }

    lemma GroupUsable(g: CacheGroup)
      requires topo.CacheGroupsDisjoint() && g in topo.cacheGroups
      ensures GroupCpus(g) <= from && GroupCpus(g) <= topo.Usable()
    {
      var i :| 0 <= i < |topo.cacheGroups| && topo.cacheGroups[i] == g;
    }

    ghost predicate UnitsOf(groups: seq<CacheGroup>, units: seq<CpuSet>)
    {
      |units| == |groups| && forall k :: 0 <= k < |units| ==> units[k] == GroupCpus(groups[k])
    }

    lemma GroupUnits(groups: seq<CacheGroup>, cpus: map<CacheGroup, CpuSet>, verdict: Verdict, units: seq<CpuSet>)
      requires topo.CacheGroupsDisjoint() && PicksGroups(groups, cpus, verdict, |topo.cacheGroups|)
      requires UnitsOf(groups, units)
      ensures PairwiseDisjoint(units)
      ensures forall k :: 0 <= k < |units| ==> units[k] <= from && units[k] <= topo.Usable()
      ensures verdict != Ignore ==> forall k :: 0 <= k < |units| ==> units[k] != {}
    {
      assert topo.cacheGroups[..|topo.cacheGroups|] == topo.cacheGroups;
      forall k | 0 <= k < |units|
        ensures units[k] <= from && units[k] <= topo.Usable() && (verdict != Ignore ==> units[k] != {})
      {
        assert groups[k] in groups;
        GroupUsable(groups[k]);
      }
      forall i, j | 0 <= i < j < |units| ensures units[i] !! units[j] {
        assert groups[i] in groups && groups[j] in groups;
        GroupsApart(groups[i], groups[j]);
      }
    }

    /** Taking from idle groups leaves the used ones as they were. */
    lemma UsedGroupsUntouched(idle: seq<CacheGroup>, idleUnits: seq<CpuSet>,
                              used: seq<CacheGroup>, usedUnits: seq<CpuSet>,
                              cpus: map<CacheGroup, CpuSet>, t: State)
      requires topo.CacheGroupsDisjoint()
      requires PicksGroups(idle, cpus, Prefer, |topo.cacheGroups|) && UnitsOf(idle, idleUnits)
      requires PicksGroups(used, cpus, Usable, |topo.cacheGroups|) && UnitsOf(used, usedUnits)
      requires TookFrom(idleUnits, S(), t) && t.from <= from
      ensures forall k :: 0 <= k < |usedUnits| ==> usedUnits[k] <= t.from
    {
      assert topo.cacheGroups[..|topo.cacheGroups|] == topo.cacheGroups;
      forall k | 0 <= k < |usedUnits| ensures usedUnits[k] <= t.from {
        assert used[k] in used;
        GroupUsable(used[k]);
        forall i | 0 <= i < |idleUnits| ensures idleUnits[i] !! usedUnits[k] {
          assert idle[i] in idle;
          GroupsApart(idle[i], used[k]);
        }
        OutsideUnsplit(idleUnits, S(), t, usedUnits[k]);
      }
    }

    ghost function FreeUnits(groups: seq<CacheGroup>): (r: seq<CpuSet>)
      ensures UnitsOf(groups, r)
    {
      seq(|groups|, i requires 0 <= i < |groups| => GroupCpus(groups[i]))
    }

    /** The idle and the used groups in their orders. */
    ghost predicate GroupsSorted(idle: seq<CacheGroup>, used: seq<CacheGroup>, ctx: GroupContext)
    {
      && PicksGroups(idle, ctx.cpus, Prefer, |topo.cacheGroups|) && PicksGroups(used, ctx.cpus, Usable, |topo.cacheGroups|)
      && CountsGroups(ctx.preferPkg, ctx.preferDie, Prefer, |topo.cacheGroups|)
      && CountsGroups(ctx.usablePkg, ctx.usableDie, Usable, |topo.cacheGroups|)
      && |topo.cacheGroups| > 0 && topo.cacheGroups[0].cpus != {}
      && ctx.full + ctx.part == cnt && ctx.part == cnt % |topo.cacheGroups[0].cpus|
      && Ordered(idle, ctx.IdleCmp()) && Ordered(used, ctx.UsedCmp(idle))
    }

    /**
     The chosen package has enough CPUs, and idle groups, of whatever package, have enough or leave what
     the leading used groups of the chosen package can complete.
     */
    ghost predicate Completes(idle: seq<CacheGroup>, used: seq<CacheGroup>, ctx: GroupContext)
    {
      && PackageTotal(idle, used, ctx) >= cnt
      && var idleTotal := Total(FreeUnits(idle), |idle|);
         || idleTotal >= cnt
         || CanComplete(FreeUnits(used), Leading(used, ChosenPackage(idle, used)), cnt - idleTotal)
    }

    /** The leading idle groups of the chosen package have enough CPUs, or there are no idle groups after them. */
    ghost predicate StaysInPackage(idle: seq<CacheGroup>, used: seq<CacheGroup>)
    {
      var n := Leading(idle, ChosenPackage(idle, used));
      n == |idle| || Total(FreeUnits(idle), n) >= cnt
    }

    /** What is taken from groups of a package is of that package. */
    lemma TakenIsOfPackage(groups: seq<CacheGroup>, units: seq<CpuSet>, n: nat, pkg: int, s: State, t: State)
      requires UnitsOf(groups, units) && n <= |groups| && TookFrom(units[..n], s, t)
      requires forall k :: 0 <= k < n ==> groups[k].pkg == pkg && groups[k] in topo.cacheGroups
      ensures AreOfPackage(topo, s.from - t.from, pkg)
    {
      forall c | c in s.from - t.from ensures exists g :: g in topo.cacheGroups && g.pkg == pkg && c in g.cpus {
        var k :| 0 <= k < n && c in units[..n][k];
        assert c in groups[k].cpus;
      }
    }

    /** A CPU of a group of another package is not of the package. */
    lemma OtherPackageTouched(g: CacheGroup, cpus: CpuSet, c: int, pkg: int)
      requires topo.CacheGroupsDisjoint() && g in topo.cacheGroups && g.pkg != pkg && c in g.cpus && c in cpus
      ensures !AreOfPackage(topo, cpus, pkg)
    {
      if AreOfPackage(topo, cpus, pkg) {
        assert false;
      }
    }

    /** Where CPUs taken from idle groups are. */
    lemma IdleTakenWhere(idle: seq<CacheGroup>, used: seq<CacheGroup>, ctx: GroupContext, units: seq<CpuSet>, n: nat, t: State)
      requires topo.CacheGroupsDisjoint() && GroupsSorted(idle, used, ctx) && units == FreeUnits(idle)
      requires IsEnough(units, n, cnt) && TookUpTo(units, n, S(), t)
      ensures AreOfPackage(topo, from - t.from, ChosenPackage(idle, used)) <==> StaysInPackage(idle, used)
    {
      hide TookFrom, AreOfPackage, Total, View.CountsGroups, Ordered;
      var pkg := ChosenPackage(idle, used);
      var lead := Leading(idle, pkg);
      assert topo.cacheGroups[..|topo.cacheGroups|] == topo.cacheGroups;
      assert forall k :: 0 <= k < |idle| ==> idle[k] in idle;
      NeededInPackage(idle, units, pkg, n, cnt);
      if n <= lead {
        TakenIsOfPackage(idle, units, n, pkg, S(), t);
      } else {
        GroupUsable(idle[lead]);
        var c := Missing(units[lead], t.from);
        OtherPackageTouched(idle[lead], from - t.from, c, pkg);
      }
    }

    lemma SortedPicks(idle: seq<CacheGroup>, used: seq<CacheGroup>, ctx: GroupContext)
      requires GroupsSorted(idle, used, ctx)
      ensures PicksGroups(idle, ctx.cpus, Prefer, |topo.cacheGroups|) && PicksGroups(used, ctx.cpus, Usable, |topo.cacheGroups|)
    {
    }

    lemma CompletesIff(idle: seq<CacheGroup>, used: seq<CacheGroup>, ctx: GroupContext, idleUnits: seq<CpuSet>, usedUnits: seq<CpuSet>)
      requires idleUnits == FreeUnits(idle) && usedUnits == FreeUnits(used) && PackageTotal(idle, used, ctx) >= cnt
      ensures |idleUnits| == |idle| && |usedUnits| == |used|
      ensures Completes(idle, used, ctx) <==>
                Total(idleUnits, |idleUnits|) >= cnt ||
                CanComplete(usedUnits, Leading(used, ChosenPackage(idle, used)), cnt - Total(idleUnits, |idleUnits|))
    {
      hide CanComplete, Total, Leading, View.GroupCpus, ChosenPackage, PackageTotal;
    }

    lemma TookLess(s: State, t: State)
      requires Took(topo, s, t)
      ensures t.from <= s.from
    {
    }

    lemma PicksAll(groups: seq<CacheGroup>, cpus: map<CacheGroup, CpuSet>, verdict: Verdict)
      requires PicksGroups(groups, cpus, verdict, |topo.cacheGroups|)
      ensures forall g :: g in groups ==> g in cpus && cpus[g] == GroupCpus(g) && g in topo.cacheGroups
    {
      assert topo.cacheGroups[..|topo.cacheGroups|] == topo.cacheGroups;
    }

    lemma SameUnits(groups: seq<CacheGroup>, units: seq<CpuSet>)
      requires |units| == |groups| && forall k :: 0 <= k < |units| ==> units[k] == GroupCpus(groups[k])
      ensures units == FreeUnits(groups)
    {
    }

    /** CPUs taken from used groups are of the chosen package. */
    lemma UsedTakenWhere(used: seq<CacheGroup>, units: seq<CpuSet>, pkg: int, s: State, t: State)
      requires UnitsOf(used, units) && TookFrom(units[..Leading(used, pkg)], s, t)
      requires forall g :: g in used ==> g in topo.cacheGroups
      ensures AreOfPackage(topo, s.from - t.from, pkg)
    {
      assert forall k :: 0 <= k < |used| ==> used[k] in used;
      TakenIsOfPackage(used, units, Leading(used, pkg), pkg, s, t);
    }

    lemma TakenTogether(s: State, t: State, u: State, pkg: int)
      requires u.from <= t.from <= s.from && AreOfPackage(topo, t.from - u.from, pkg)
      ensures AreOfPackage(topo, s.from - u.from, pkg) <==> AreOfPackage(topo, s.from - t.from, pkg)
    {
      assert forall c :: c in s.from - u.from <==> c in s.from - t.from || c in t.from - u.from;
    }
  
  }

  // ---- stages that take whole units, best first

  /** CPUs taken from the first k units. */
  ghost function TakenOf(units: seq<CpuSet>, k: nat, s: State, t: State): CpuSet
    requires k <= |units|
  {
    set c | c in s.from - t.from && InUnits(units, k, c)
  }

  ghost predicate InUnits(units: seq<CpuSet>, k: nat, c: int)
    requires k <= |units|
  {
    exists j :: 0 <= j < k && c in units[j]
  }

  /** Each of the first i units was taken exactly if it fitted what those before it had left of the request. */
  ghost predicate InTurn(units: seq<CpuSet>, i: nat, s: State, t: State)
    requires i <= |units|
  {
    forall k :: 0 <= k < i && units[k] != {} ==> (units[k] <= s.from - t.from <==> |units[k]| + |TakenOf(units, k, s, t)| <= s.cnt)
  }

  lemma NothingInTurn(units: seq<CpuSet>, s: State)
    ensures InTurn(units, 0, s, s)
  {
  }

  /** What is taken from a later unit makes no difference to those before it. */
  lemma TakenOfStays(units: seq<CpuSet>, k: nat, i: nat, s: State, t: State, cset: CpuSet)
    requires k <= i < |units| && PairwiseDisjoint(units) && cset <= units[i] && t.from <= s.from
    ensures TakenOf(units, k, s, t.Take(cset)) == TakenOf(units, k, s, t)
  {
    forall c | c in cset ensures !InUnits(units, k, c) {
      forall j | 0 <= j < k ensures c !in units[j] {
        assert units[j] !! units[i];
      }
    }
  }

  /** All that has been taken so far is of the units before. */
  lemma TakenSoFar(units: seq<CpuSet>, i: nat, s: State, t: State)
    requires i <= |units| && TookFrom(units[..i], s, t)
    ensures TakenOf(units, i, s, t) == s.from - t.from
  {
    forall c | c in s.from - t.from ensures InUnits(units, i, c) {
      var j :| 0 <= j < i && c in units[..i][j];
      assert c in units[j];
    }
  }

  /** The next unit is taken, as it fits. */
  lemma InTurnTake(topo: Topo, units: seq<CpuSet>, i: nat, s: State, t: State)
    requires i < |units| && PairwiseDisjoint(units) && InTurn(units, i, s, t) && Took(topo, s, t) && TookFrom(units[..i], s, t)
    requires units[i] <= t.from && |units[i]| <= t.cnt
    ensures InTurn(units, i + 1, s, t.Take(units[i]))
  {
    hide TakenOf, TookFrom;
    var u := t.Take(units[i]);
    forall k | 0 <= k < i && units[k] != {}
      ensures units[k] <= s.from - u.from <==> |units[k]| + |TakenOf(units, k, s, u)| <= s.cnt
    {
      TakenOfStays(units, k, i, s, t, units[i]);
      assert units[k] !! units[i];
      GoneOrNot(units[k], s.from, t.from, units[i]);
    }
    TakenOfStays(units, i, i, s, t, units[i]);
    TakenSoFar(units, i, s, t);
    assert units[i] <= s.from - u.from;
  }

  lemma GoneOrNot(unit: CpuSet, whole: CpuSet, left: CpuSet, piece: CpuSet)
    requires unit !! piece
    ensures unit <= whole - (left - piece) <==> unit <= whole - left
  {
  }

  /** The next unit is left, as it does not fit. */
  lemma InTurnSkip(topo: Topo, units: seq<CpuSet>, i: nat, s: State, t: State)
    requires i < |units| && InTurn(units, i, s, t) && Took(topo, s, t) && TookFrom(units[..i], s, t)
    requires units[i] <= t.from && |units[i]| > t.cnt
    ensures InTurn(units, i + 1, s, t)
  {
    TakenSoFar(units, i, s, t);
    if units[i] != {} {
      var c := Pick(units[i]);
      assert c !in s.from - t.from;
    }
  }

  /** When nothing is wanted any more, units that are left did not fit. */
  lemma InTurnDone(topo: Topo, units: seq<CpuSet>, i: nat, s: State, t: State)
    requires i <= |units| && PairwiseDisjoint(units) && InTurn(units, i, s, t) && Took(topo, s, t) && TookFrom(units[..i], s, t)
    requires t.cnt == 0 || i == |units|
    requires forall k :: i <= k < |units| ==> units[k] <= t.from
    ensures InTurn(units, |units|, s, t)
  {
    forall k | i <= k < |units| && units[k] != {}
      ensures units[k] <= s.from - t.from <==> |units[k]| + |TakenOf(units, k, s, t)| <= s.cnt
    {
      TakenSoFar(units, i, s, t);
      assert TakenOf(units, k, s, t) == s.from - t.from by {
        forall c | c in s.from - t.from ensures InUnits(units, k, c) {
          assert c in TakenOf(units, i, s, t);
          var j :| 0 <= j < i && c in units[j];
        }
      }
      var c := Pick(units[k]);
      assert c !in s.from - t.from;
    }
  }

  /** CPUs taken from units that come before a unit. */
  ghost function TakenBefore(units: map<int, CpuSet>, cmp: (int, int) -> int, i: int, s: State, t: State): CpuSet {
    set c | c in s.from - t.from && InEarlier(units, cmp, i, c)
  }

  ghost predicate InEarlier(units: map<int, CpuSet>, cmp: (int, int) -> int, i: int, c: int) {
    exists j :: j in units && cmp(j, i) < 0 && c in units[j]
  }

  /**
   What a stage does that takes whole units in order: nothing but units is taken, none is split, and an idle
   unit is taken exactly if it fits what the units before it leave of the request.
   */
  ghost predicate UnitStage(units: map<int, CpuSet>, cmp: (int, int) -> int, s: State, t: State) {
    && (forall c :: c in s.from - t.from ==> exists i :: i in units && c in units[i])
    && (forall i :: i in units ==> Greedy(units[i], s, t))
    && (forall i :: i in units && {} != units[i] <= s.from ==>
          (units[i] <= s.from - t.from <==> |units[i]| + |TakenBefore(units, cmp, i, s, t)| <= s.cnt))
  }

  /** No two units share CPUs. */
  ghost predicate UnitsApart(units: map<int, CpuSet>) {
    forall i, j :: i in units && j in units && i != j ==> units[i] !! units[j]
  }

  ghost predicate Strict(cmp: (int, int) -> int) {
    Lawful(cmp) && forall i, j :: cmp(i, j) == 0 <==> i == j
  }

  /** Taking idle units in order is such a stage. */
  lemma SortedUnitStage(units: map<int, CpuSet>, cmp: (int, int) -> int, ids: seq<int>, csets: seq<CpuSet>, s: State, t: State)
    requires UnitsApart(units) && Strict(cmp) && Distinct(ids) && Ordered(ids, cmp)
    requires forall i :: i in ids <==> i in units && units[i] <= s.from
    requires |csets| == |ids| && forall k :: 0 <= k < |ids| ==> ids[k] in units && csets[k] == units[ids[k]]
    requires TookFrom(csets, s, t) && InTurn(csets, |csets|, s, t)
    requires forall i :: i in units ==> Greedy(units[i], s, t)
    ensures UnitStage(units, cmp, s, t)
  {
    forall c | c in s.from - t.from ensures exists i :: i in units && c in units[i] {
      var k :| 0 <= k < |csets| && c in csets[k];
      assert c in units[ids[k]];
    }
    forall i | i in units && {} != units[i] <= s.from
      ensures units[i] <= s.from - t.from <==> |units[i]| + |TakenBefore(units, cmp, i, s, t)| <= s.cnt
    {
      assert i in ids;
      var k :| 0 <= k < |ids| && ids[k] == i;
      BeforeIsEarlier(units, cmp, ids, csets, s, t, k);
    }
  }

  lemma BeforeIsEarlier(units: map<int, CpuSet>, cmp: (int, int) -> int, ids: seq<int>, csets: seq<CpuSet>, s: State, t: State, k: nat)
    requires UnitsApart(units) && Strict(cmp) && Distinct(ids) && Ordered(ids, cmp) && k < |ids|
    requires |csets| == |ids| && forall k :: 0 <= k < |ids| ==> ids[k] in units && csets[k] == units[ids[k]]
    requires TookFrom(csets, s, t)
    ensures TakenBefore(units, cmp, ids[k], s, t) == TakenOf(csets, k, s, t)
  {
    forall c | c in s.from - t.from ensures InEarlier(units, cmp, ids[k], c) <==> InUnits(csets, k, c) {
      var l :| 0 <= l < |csets| && c in csets[l];
      if l < k {
        assert cmp(ids[l], ids[k]) <= 0 && ids[l] != ids[k];
        assert c in units[ids[l]];
      } else {
        LaterIsNotEarlier(units, cmp, ids, k, l, c);
        forall j | 0 <= j < k ensures c !in csets[j] {
          assert ids[j] != ids[l] && units[ids[j]] !! units[ids[l]];
        }
      }
    }
  }

  lemma LaterIsNotEarlier(units: map<int, CpuSet>, cmp: (int, int) -> int, ids: seq<int>, k: nat, l: nat, c: int)
    requires UnitsApart(units) && Strict(cmp) && Ordered(ids, cmp) && k <= l < |ids| && ids[l] in units && c in units[ids[l]]
    ensures !InEarlier(units, cmp, ids[k], c)
  {
    forall j | j in units && c in units[j] ensures cmp(j, ids[k]) >= 0 {
      assert j == ids[l];
      assert k < l ==> cmp(ids[k], ids[l]) <= 0;
      assert cmp(ids[l], ids[k]) < 0 <==> cmp(ids[k], ids[l]) > 0;
    }
  }

  /** No unit is passed over for a later one that is no smaller. */
  lemma NotPassedOver(units: map<int, CpuSet>, cmp: (int, int) -> int, s: State, t: State, i: int, j: int)
    requires Strict(cmp) && UnitStage(units, cmp, s, t) && i in units && j in units && cmp(i, j) < 0
    requires {} != units[i] <= s.from && {} != units[j] <= s.from - t.from && |units[i]| <= |units[j]|
    ensures units[i] <= s.from - t.from
  {
    forall c | c in TakenBefore(units, cmp, i, s, t) ensures c in TakenBefore(units, cmp, j, s, t) {
      var k :| k in units && cmp(k, i) < 0 && c in units[k];
      Transitive(cmp, k, i, j);
    }
    SubsetSize(TakenBefore(units, cmp, i, s, t), TakenBefore(units, cmp, j, s, t));
    var _ := Pick(units[j]);
    assert units[j] <= s.from;
  }

  lemma Transitive(cmp: (int, int) -> int, i: int, j: int, k: int)
    requires Strict(cmp) && cmp(i, j) < 0 && cmp(j, k) < 0
    ensures cmp(i, k) < 0
  {
    assert cmp(i, j) <= 0 && cmp(j, k) <= 0 && cmp(i, k) <= 0;
    assert cmp(k, j) > 0 <==> cmp(j, k) < 0;
  }

  // ---- such a stage has one outcome

  ghost function Earlier(units: map<int, CpuSet>, cmp: (int, int) -> int, i: int): set<int> {
    set j | j in units && cmp(j, i) < 0
  }

  lemma EarlierShrinks(units: map<int, CpuSet>, cmp: (int, int) -> int, i: int, j: int)
    requires Strict(cmp) && j in Earlier(units, cmp, i)
    ensures |Earlier(units, cmp, j)| < |Earlier(units, cmp, i)|
  {
    forall k | k in Earlier(units, cmp, j) ensures k in Earlier(units, cmp, i) {
      Transitive(cmp, k, j, i);
    }
    SubsetSize(Earlier(units, cmp, j), Earlier(units, cmp, i) - {j});
  }

  /** A unit that lost a CPU lost them all, and was idle. */
  lemma TouchedIsTaken(units: map<int, CpuSet>, cmp: (int, int) -> int, s: State, t: State, i: int, c: int)
    requires UnitStage(units, cmp, s, t) && i in units && c in units[i] && c in s.from - t.from
    ensures units[i] <= s.from - t.from && {} != units[i] <= s.from
  {
    assert Greedy(units[i], s, t);
  }

  /** Two outcomes agree on each unit, as they do on all units before it. */
  lemma {:induction false} SameUnitTaken(units: map<int, CpuSet>, cmp: (int, int) -> int, s: State, t: State, u: State, i: int)
    requires Strict(cmp) && UnitStage(units, cmp, s, t) && UnitStage(units, cmp, s, u)
    requires i in units && {} != units[i] <= s.from
    ensures units[i] <= s.from - t.from <==> units[i] <= s.from - u.from
    decreases |Earlier(units, cmp, i)|
  {
    forall j | j in units && cmp(j, i) < 0 && {} != units[j] <= s.from
      ensures units[j] <= s.from - t.from <==> units[j] <= s.from - u.from
    {
      EarlierShrinks(units, cmp, i, j);
      SameUnitTaken(units, cmp, s, t, u, j);
    }
    forall c ensures c in TakenBefore(units, cmp, i, s, t) <==> c in TakenBefore(units, cmp, i, s, u) {
      if c in TakenBefore(units, cmp, i, s, t) {
        var j :| j in units && cmp(j, i) < 0 && c in units[j];
        TouchedIsTaken(units, cmp, s, t, j, c);
      }
      if c in TakenBefore(units, cmp, i, s, u) {
        var j :| j in units && cmp(j, i) < 0 && c in units[j];
        TouchedIsTaken(units, cmp, s, u, j, c);
      }
    }
    assert TakenBefore(units, cmp, i, s, t) == TakenBefore(units, cmp, i, s, u);
  }

  lemma UnitStageUnique(topo: Topo, units: map<int, CpuSet>, cmp: (int, int) -> int, s: State, t: State, u: State)
    requires Strict(cmp) && UnitStage(units, cmp, s, t) && UnitStage(units, cmp, s, u)
    requires Took(topo, s, t) && Took(topo, s, u)
    ensures t == u
  {
    var a, b := s.from - t.from, s.from - u.from;
    forall c ensures c in a <==> c in b {
      if c in a {
        var i :| i in units && c in units[i];
        TouchedIsTaken(units, cmp, s, t, i, c);
        SameUnitTaken(units, cmp, s, t, u, i);
      }
      if c in b {
        var i :| i in units && c in units[i];
        TouchedIsTaken(units, cmp, s, u, i, c);
        SameUnitTaken(units, cmp, s, t, u, i);
      }
    }
    assert a == b;
    SameTaken(topo, s, t, u);
  }

  lemma SameTaken(topo: Topo, s: State, t: State, u: State)
    requires Took(topo, s, t) && Took(topo, s, u) && s.from - t.from == s.from - u.from
    ensures t == u
  {
    assert t.from == s.from - (s.from - t.from) && u.from == s.from - (s.from - u.from);
  }

  // ---- the stages

  /** Packages, of which the preferred online CPUs count. */
  ghost function Packages(topo: Topo, prefer: CpuPriority): map<int, CpuSet> {
    map p | p in topo.packageIds :: PackageCpus(topo, prefer, p)
  }

  lemma PackagesOrdered(topo: Topo, prefer: CpuPriority)
    requires topo.PackagesPartition()
    ensures UnitsApart(Packages(topo, prefer)) && Strict(PackageCmp(topo, prefer))
  {
    PackageCmpLawful(topo, prefer);
    forall p, q | p in topo.packageIds && q in topo.packageIds && p != q
      ensures PackageCpus(topo, prefer, p) !! PackageCpus(topo, prefer, q)
    {
      assert topo.PkgSet(p) !! topo.PkgSet(q);
    }
  }

  /** Whole packages, for a preference only their CPUs of that priority, best package first. */
  ghost predicate PackageStage(topo: Topo, prefer: CpuPriority, s: State, t: State) {
    Took(topo, s, t) && UnitStage(Packages(topo, prefer), PackageCmp(topo, prefer), s, t)
  }

  /** Cores by their first online thread. */
  ghost function Cores(topo: Topo): map<int, CpuSet> {
    map c | c in topo.cpuIds && IsMin(topo.OnlineCore(c), c) :: topo.OnlineCore(c)
  }

  lemma CoresOrdered(topo: Topo, prefer: CpuPriority)
    requires topo.CoresPartition()
    ensures UnitsApart(Cores(topo)) && Strict(CoreCmp(topo, prefer))
  {
    CoreCmpLawful(topo, prefer);
    forall c, d | c in Cores(topo) && d in Cores(topo) && c != d ensures topo.OnlineCore(c) !! topo.OnlineCore(d) {
      View(topo, prefer, {}, {}, 0).CoresApart(c, d);
    }
  }

  /** Whole cores, best first. */
  ghost predicate CoreStage(topo: Topo, prefer: CpuPriority, s: State, t: State) {
    Took(topo, s, t) && UnitStage(Cores(topo), CoreCmp(topo, prefer), s, t)
  }

  /** Threads are taken until the request is met or none is left, and none that is left comes before one that is taken. */
  ghost predicate ThreadStage(topo: Topo, prefer: CpuPriority, s: State, t: State) {
    && Took(topo, s, t) && (t.cnt == 0 || t.from * topo.Usable() == {})
    && forall c, d :: c in s.from - t.from && d in t.from && d in topo.Usable() ==>
         ThreadContext(topo, s.from, s.result, prefer, s.cnt).Order(c, d) < 0
  }

  lemma TakenBeforeLeft(topo: Topo, threads: seq<int>, n: nat, s: State, t: State, c: int, d: int) returns (i: nat, j: nat)
    requires n <= |threads| && IsPrefixTaken(threads, n, s, t)
    requires forall c :: c in threads <==> c in s.from && c in topo.Usable()
    requires c in s.from - t.from && d in t.from && d in s.from && d in topo.Usable()
    ensures i < n <= j < |threads| && threads[i] == c && threads[j] == d
  {
    assert c in threads[..n] && d in threads && d !in threads[..n] && threads == threads[..n] + threads[n..];
    i :| 0 <= i < n && threads[i] == c;
    j :| n <= j < |threads| && threads[j] == d;
  }

  /** Taking the first threads in order is such a stage. */
  lemma PrefixIsThreadStage(ctx: ThreadContext, threads: seq<int>, n: nat, s: State, t: State)
    requires ctx == ThreadContext(ctx.topo, s.from, s.result, ctx.prefer, s.cnt) && Took(ctx.topo, s, t)
    requires Distinct(threads) && Ordered(threads, ctx.Cmp()) && n <= |threads| && IsPrefixTaken(threads, n, s, t)
    requires forall c :: c in threads <==> c in s.from && c in ctx.topo.Usable()
    requires t.cnt == 0 || t.from * ctx.topo.Usable() == {}
    ensures ThreadStage(ctx.topo, ctx.prefer, s, t)
  {
    hide ThreadContext.Order, Lawful, IsPrefixTaken, Topo.Usable, Distinct;
    ctx.CmpLawful();
    forall c, d | c in s.from - t.from && d in t.from && d in ctx.topo.Usable() ensures ctx.Order(c, d) < 0 {
      var i, j := TakenBeforeLeft(ctx.topo, threads, n, s, t, c, d);
      assert ctx.Cmp()(threads[i], threads[j]) <= 0;
    }
  }

  lemma ThreadStageUnique(topo: Topo, prefer: CpuPriority, s: State, t: State, u: State)
    requires ThreadStage(topo, prefer, s, t) && ThreadStage(topo, prefer, s, u) && s.cnt >= 0
    ensures t == u
  {
    var ctx := ThreadContext(topo, s.from, s.result, prefer, s.cnt);
    NoneBeyond(topo, ctx, s, t, u);
    NoneBeyond(topo, ctx, s, u, t);
    SameTaken(topo, s, t, u);
  }

  /** What one outcome takes, the other does. */
  lemma NoneBeyond(topo: Topo, ctx: ThreadContext, s: State, t: State, u: State)
    requires ctx == ThreadContext(topo, s.from, s.result, ctx.prefer, s.cnt) && s.cnt >= 0
    requires ThreadStage(topo, ctx.prefer, s, t) && ThreadStage(topo, ctx.prefer, s, u)
    ensures s.from - t.from <= s.from - u.from
  {
    var a, b := s.from - t.from, s.from - u.from;
    if !(a <= b) {
      var c := Missing(a, b);
      assert c in u.from * topo.Usable();
      assert u.cnt == 0 && |b| == s.cnt >= |a|;
      if b <= a {
        SubsetSize(b, a - {c});
        assert false;
      }
      var d := Missing(b, a);
      NotBothFirst(ctx, c, d);
      assert false;
    }
  }

  lemma NotBothFirst(ctx: ThreadContext, c: int, d: int)
    ensures ctx.Order(c, d) < 0 ==> ctx.Order(d, c) > 0
  {
    ctx.CmpLawful();
    assert ctx.Cmp()(c, d) < 0 <==> ctx.Cmp()(d, c) > 0;
  }

  // ---- clusters and cache groups

  function ViewOf(topo: Topo, prefer: CpuPriority, s: State): View {
    View(topo, prefer, s.from, s.result, s.cnt)
  }

  /** Idle clusters in order, the tightest that alone satisfies the request first. */
  ghost predicate ClustersTaken(topo: Topo, prefer: CpuPriority, order: seq<Cluster>, ctx: ClusterContext, n: nat, s: State, t: State) {
    var v := ViewOf(topo, prefer, s);
    && Took(topo, s, t) && v.ClustersSorted(order, ctx)
    && (order == [] ==> t == s) && (order != [] ==> TookTightest(v.ClusterUnitsOf(order), n, s, t))
  }

  ghost predicate ClusterStage(topo: Topo, prefer: CpuPriority, s: State, t: State) {
    if |topo.clusters| <= 1 then t == s
    else exists order, ctx, n :: ClustersTaken(topo, prefer, order, ctx, n, s, t)
  }

  /** n CPUs of a group that is split: whole cores first, then threads. */
  ghost predicate SplitBy(topo: Topo, prefer: CpuPriority, cset: CpuSet, n: int, use: CpuSet) {
    exists cores :: SplitVia(topo, prefer, State(cset, {}, n), cores, State(cset - use, use, 0))
  }

  ghost predicate SplitVia(topo: Topo, prefer: CpuPriority, s: State, cores: State, t: State) {
    CoreStage(topo, prefer, s, cores) && if cores.cnt > 0 then ThreadStage(topo, prefer, cores, t) else t == cores
  }

  /** A unit is gone, or the part of it that was still wanted after the units before it. */
  ghost predicate UnitGone(topo: Topo, prefer: CpuPriority, units: seq<CpuSet>, k: nat, s: State, t: State)
    requires k < |units|
  {
    if Total(units, k + 1) <= s.cnt then units[k] !! t.from
    else SplitBy(topo, prefer, units[k], s.cnt - Total(units, k), units[k] - t.from)
  }

  ghost predicate UnitsGone(topo: Topo, prefer: CpuPriority, units: seq<CpuSet>, n: nat, s: State, t: State) {
    n <= |units| && forall k :: 0 <= k < n ==> UnitGone(topo, prefer, units, k, s, t)
  }

  /** As few leading units as suffice are taken, or all of them, and the last one in part if it has too many CPUs. */
  ghost predicate LeadingTaken(topo: Topo, prefer: CpuPriority, units: seq<CpuSet>, n: nat, s: State, t: State) {
    && IsEnough(units, n, s.cnt) && Took(topo, s, t) && TookFrom(units[..n], s, t)
    && UnitsGone(topo, prefer, units, n, s, t)
  }

  /** The next unit is taken, or the wanted part of it. */
  lemma UnitsGoneMore(topo: Topo, prefer: CpuPriority, units: seq<CpuSet>, i: nat, s: State, t: State, use: CpuSet)
    requires i < |units| && PairwiseDisjoint(units) && UnitsGone(topo, prefer, units, i, s, t)
    requires use <= units[i] <= t.from && t.cnt == s.cnt - Total(units, i)
    requires if t.cnt < |units[i]| then SplitBy(topo, prefer, units[i], t.cnt, use) else use == units[i]
    ensures UnitsGone(topo, prefer, units, i + 1, s, t.Take(use))
  {
    hide SplitBy;
    var u := t.Take(use);
    forall k | 0 <= k < i + 1 ensures UnitGone(topo, prefer, units, k, s, u) {
      if k < i {
        assert units[k] !! units[i] && UnitGone(topo, prefer, units, k, s, t);
        assert units[k] - u.from == units[k] - t.from;
      } else {
        assert units[i] - u.from == use;
      }
    }
  }

  /** The first i units are gone, all of which fitted, and the others are whole. */
  ghost predicate WholeTaken(topo: Topo, prefer: CpuPriority, units: seq<CpuSet>, n: nat, i: nat, s: State, t: State) {
    && i <= n <= |units| && Took(topo, s, t) && TookFrom(units[..n], s, t) && 0 <= t.cnt == s.cnt - Total(units, i)
    && (forall k :: i <= k < |units| ==> units[k] <= t.from)
    && UnitsGone(topo, prefer, units, i, s, t)
  }

  lemma WholeStart(topo: Topo, prefer: CpuPriority, units: seq<CpuSet>, n: nat, s: State)
    requires n <= |units| && s.cnt >= 0 && forall k :: 0 <= k < |units| ==> units[k] <= s.from
    ensures WholeTaken(topo, prefer, units, n, 0, s, s)
  {
    TookNothing(topo, s);
    TookFromAny(units[..n], s);
  }

  lemma WholeNext(topo: Topo, prefer: CpuPriority, units: seq<CpuSet>, n: nat, i: nat, s: State, t: State)
    requires PairwiseDisjoint(units) && WholeTaken(topo, prefer, units, n, i, s, t)
    requires i < n && units[i] <= topo.Usable() && |units[i]| <= t.cnt
    ensures WholeTaken(topo, prefer, units, n, i + 1, s, t.Take(units[i]))
  {
    hide Took, TookFrom, UnitsGone, Total, PairwiseDisjoint, Topo.Usable;
    UnitsGoneMore(topo, prefer, units, i, s, t, units[i]);
    RestLeft(units, i, t.from);
    TotalNext(units, i);
    assert units[..n][i] == units[i];
    TookFromMore(units[..n], s, t, units[i], i);
    TookMore(topo, s, t, units[i]);
  }

  lemma WholeIs(topo: Topo, prefer: CpuPriority, units: seq<CpuSet>, n: nat, i: nat, s: State, t: State)
    requires WholeTaken(topo, prefer, units, n, i, s, t)
    ensures Took(topo, s, t) && TookFrom(units[..n], s, t) && t.cnt == s.cnt - Total(units, i)
    ensures UnitsGone(topo, prefer, units, i, s, t) && (i < |units| ==> units[i] <= t.from)
  {
  }

  /** When no more fits, or all are gone, at most the last one is left. */
  lemma WholeEnd(topo: Topo, prefer: CpuPriority, units: seq<CpuSet>, n: nat, i: nat, s: State, t: State)
    requires WholeTaken(topo, prefer, units, n, i, s, t) && 0 < n && Total(units, n - 1) < s.cnt <= Total(units, n)
    requires i == n || t.cnt < |units[i]|
    ensures if i == n then t.cnt == 0 else i == n - 1 && t.cnt > 0
  {
    hide Total, UnitsGone;
    if i < n - 1 {
      TotalNext(units, i);
      TotalGrows(units, i + 1, n - 1);
    }
  }

  /** The first of the leading units that has just the wanted size. */
  ghost predicate IsFirstOfSize(units: seq<CpuSet>, n: nat, k: nat, size: int)
    requires n <= |units|
  {
    k < n && |units[k]| == size && forall j :: 0 <= j < k ==> |units[j]| != size
  }

  /** One group that has just the wanted size, or else as few leading groups as suffice. */
  ghost predicate UsedTaken(topo: Topo, prefer: CpuPriority, units: seq<CpuSet>, n: nat, s: State, t: State)
    requires n <= |units|
  {
    if exists k :: 0 <= k < n && |units[k]| == s.cnt
    then exists k: nat :: IsFirstOfSize(units, n, k, s.cnt) && t == s.Take(units[k])
    else exists k: nat :: k <= n && LeadingTaken(topo, prefer, units, k, s, t)
  }

  /** What is taken from groups in their orders when the request can be completed: idle groups, then used ones of the chosen package. */
  ghost predicate GroupsTaken(topo: Topo, prefer: CpuPriority, idle: seq<CacheGroup>, used: seq<CacheGroup>, n: nat, mid: State, s: State, t: State) {
    var v := ViewOf(topo, prefer, s);
    && LeadingTaken(topo, prefer, v.FreeUnits(idle), n, s, mid)
    && if mid.cnt == 0 then t == mid
       else UsedTaken(topo, prefer, v.FreeUnits(used), Leading(used, ChosenPackage(idle, used)), mid, t)
  }

  ghost predicate GroupsOutcome(topo: Topo, prefer: CpuPriority, idle: seq<CacheGroup>, used: seq<CacheGroup>, ctx: GroupContext, s: State, t: State) {
    var v := ViewOf(topo, prefer, s);
    && v.GroupsSorted(idle, used, ctx)
    && if v.Completes(idle, used, ctx)
       then t.cnt == 0 && Took(topo, s, t) && exists n, mid :: GroupsTaken(topo, prefer, idle, used, n, mid, s, t)
       else t == s
  }

  ghost predicate GroupStage(topo: Topo, prefer: CpuPriority, s: State, t: State) {
    if |topo.cacheGroups| <= 1 || s.cnt < 2 then t == s
    else exists idle, used, ctx :: GroupsOutcome(topo, prefer, idle, used, ctx, s, t)
  }

  // ---- the whole allocation

  /** The states after the stages before the last one. */
  datatype Trace = Trace(packages: State, clusters: State, groups: State, cores: State)

  /** Stages run in this order, as the flags ask for them and as long as CPUs are wanted. */
  ghost predicate Staged(topo: Topo, flags: Flags, prefer: CpuPriority, s: State, trace: Trace, t: State) {
    StagedGroups(topo, flags, prefer, s, trace, trace.groups) && StagedRest(topo, flags, prefer, trace.groups, trace.cores, t)
  }

  ghost predicate StagedGroups(topo: Topo, flags: Flags, prefer: CpuPriority, s: State, trace: Trace, t: State) {
    && (if flags.idlePackages then PackageStage(topo, prefer, s, trace.packages) else trace.packages == s)
    && (if topo.kindCount > 1 && trace.packages.cnt > 0 && flags.idleClusters
        then ClusterStage(topo, prefer, trace.packages, trace.clusters) else trace.clusters == trace.packages)
    && (if trace.clusters.cnt > 0 && flags.cacheGroups
        then GroupStage(topo, prefer, trace.clusters, t) else t == trace.clusters)
  }

  ghost predicate StagedRest(topo: Topo, flags: Flags, prefer: CpuPriority, s: State, cores: State, t: State) {
    && (if s.cnt > 0 && flags.idleCores then CoreStage(topo, prefer, s, cores) else cores == s)
    && (if cores.cnt > 0 then ThreadStage(topo, prefer, cores, t) else t == cores)
  }

  /** The CPUs allocated, and those left, are what the stages end with, or everything if all is wanted. */
  ghost predicate Allocated(topo: Topo, flags: Flags, prefer: CpuPriority, from: CpuSet, cnt: int, result: CpuSet, left: CpuSet) {
    if |from| == cnt then result == from && left == {}
    else exists trace, end :: Staged(topo, flags, prefer, State(from, {}, cnt), trace, end) && AtEnd(end, result, left)
  }

  /** A request that is not met allocates nothing. */
  ghost predicate AtEnd(end: State, result: CpuSet, left: CpuSet) {
    left == end.from && result == if end.cnt == 0 then end.result else {}
  }

  // ---- which CPUs come out

  /** No cluster and no cache group is looked for. */
  predicate PlainStages(topo: Topo, flags: Flags) {
    && (topo.kindCount <= 1 || !flags.idleClusters || |topo.clusters| <= 1)
    && (!flags.cacheGroups || |topo.cacheGroups| <= 1)
  }

  lemma CoreStageUnique(topo: Topo, prefer: CpuPriority, s: State, t: State, u: State)
    requires CoreStage(topo, prefer, s, t) && CoreStage(topo, prefer, s, u)
    ensures t == u
  {
    CoreCmpLawful(topo, prefer);
    UnitStageUnique(topo, Cores(topo), CoreCmp(topo, prefer), s, t, u);
  }

  lemma PackageStageUnique(topo: Topo, prefer: CpuPriority, s: State, t: State, u: State)
    requires PackageStage(topo, prefer, s, t) && PackageStage(topo, prefer, s, u)
    ensures t == u
  {
    PackageCmpLawful(topo, prefer);
    UnitStageUnique(topo, Packages(topo, prefer), PackageCmp(topo, prefer), s, t, u);
  }

  lemma RestUnique(topo: Topo, flags: Flags, prefer: CpuPriority, s: State, cores: State, t: State, cores': State, t': State)
    requires StagedRest(topo, flags, prefer, s, cores, t) && StagedRest(topo, flags, prefer, s, cores', t')
    ensures t == t'
  {
    hide CoreStage, ThreadStage;
    if s.cnt > 0 && flags.idleCores {
      CoreStageUnique(topo, prefer, s, cores, cores');
    }
    if cores.cnt > 0 {
      ThreadStageUnique(topo, prefer, cores, t, t');
    }
  }

  /** There is just one way to split a group. */
  lemma SplitUnique(topo: Topo, prefer: CpuPriority, cset: CpuSet, n: int, use: CpuSet, use': CpuSet)
    requires n > 0 && SplitBy(topo, prefer, cset, n, use) && SplitBy(topo, prefer, cset, n, use')
    ensures use == use'
  {
    hide CoreStage, ThreadStage;
    var s := State(cset, {}, n);
    var cores :| SplitVia(topo, prefer, s, cores, State(cset - use, use, 0));
    var cores' :| SplitVia(topo, prefer, s, cores', State(cset - use', use', 0));
    RestUnique(topo, ALLOC_IDLE_CORES, prefer, s, cores, State(cset - use, use, 0), cores', State(cset - use', use', 0));
  }

  /** Unless clusters or cache groups are looked for, it is determined which CPUs are allocated. */
  lemma AllocatedUnique(topo: Topo, flags: Flags, prefer: CpuPriority, from: CpuSet, cnt: int, result: CpuSet, left: CpuSet, result': CpuSet, left': CpuSet)
    requires PlainStages(topo, flags)
    requires Allocated(topo, flags, prefer, from, cnt, result, left) && Allocated(topo, flags, prefer, from, cnt, result', left')
    ensures result == result' && left == left'
  {
    if |from| != cnt {
      hide StagedGroups, StagedRest;
      var s := State(from, {}, cnt);
      var trace, end :| Staged(topo, flags, prefer, s, trace, end) && AtEnd(end, result, left);
      var trace', end' :| Staged(topo, flags, prefer, s, trace', end') && AtEnd(end', result', left');
      GroupsUnique(topo, flags, prefer, s, trace, trace.groups, trace', trace'.groups);
      RestUnique(topo, flags, prefer, trace.groups, trace.cores, end, trace'.cores, end');
    }
  }

  lemma GroupsUnique(topo: Topo, flags: Flags, prefer: CpuPriority, s: State, trace: Trace, t: State, trace': Trace, t': State)
    requires PlainStages(topo, flags)
    requires StagedGroups(topo, flags, prefer, s, trace, t) && StagedGroups(topo, flags, prefer, s, trace', t')
    ensures t == t'
  {
    hide PackageStage;
    if flags.idlePackages {
      PackageStageUnique(topo, prefer, s, trace.packages, trace'.packages);
    }
  }

  /** In a package, threads of the preferred priority are taken before any others. */
  lemma PreferredThreadsFirst(topo: Topo, prefer: CpuPriority, s: State, t: State, c: int, d: int)
    requires ThreadStage(topo, prefer, s, t) && prefer < NONE && topo.PackageOf(c) == topo.PackageOf(d)
    requires c in s.from - t.from && c !in topo.prios.Of(prefer)
    requires d in topo.Usable() && d in topo.prios.Of(prefer)
    ensures d !in t.from
  {
    hide Took, ThreadContext.Order;
    var ctx := ThreadContext(topo, s.from, s.result, prefer, s.cnt);
    PreferredComesFirst(ctx, d, c);
    NotBothFirst(ctx, d, c);
  }

  lemma PreferredComesFirst(ctx: ThreadContext, c: int, d: int)
    requires ctx.prefer < NONE && ctx.topo.PackageOf(c) == ctx.topo.PackageOf(d)
    requires c in ctx.topo.prios.Of(ctx.prefer) && d !in ctx.topo.prios.Of(ctx.prefer)
    ensures ctx.Order(c, d) < 0
  {
    hide CmpCounts, CountsOf;
    var prios, prefer := ctx.topo.prios, ctx.prefer;
    var free := CountsOf(prios, ctx.PkgFree(ctx.topo.PackageOf(c)));
    CmpCountsSame(free, prefer, ctx.cnt);
    OfItsPriority(prios, prefer, c);
    OfItsPriority(prios, prefer, d);
    MoreIsPreferred(CountsOf(prios, {c}), CountsOf(prios, {d}), prefer);
  }

  lemma OfItsPriority(prios: PriorityMap, prefer: CpuPriority, c: int)
    requires prefer < NONE
    ensures CountsOf(prios, {c}).Of(prefer) == if c in prios.Of(prefer) then 1 else 0
  {
    assert {c} * prios.Of(prefer) == if c in prios.Of(prefer) then {c} else {};
  }

  lemma MoreIsPreferred(a: Counts, b: Counts, prefer: CpuPriority)
    requires prefer < NONE && a.Of(prefer) > b.Of(prefer)
    ensures CmpCounts(a, b, prefer, 0) > 0
  {
    FavorFrom(a, b, prefer, 0);
  }

  lemma CmpCountsSame(a: Counts, prefer: CpuPriority, cpuCnt: int)
    ensures CmpCounts(a, a, prefer, cpuCnt) == 0
  {
    CmpCountsIsRankOrder(a, a, prefer, cpuCnt);
    LexTotal(PriorityRank(a, prefer, cpuCnt), PriorityRank(a, prefer, cpuCnt));
  }

  lemma StagedTook(topo: Topo, flags: Flags, prefer: CpuPriority, s: State, trace: Trace, t: State)
    requires Staged(topo, flags, prefer, s, trace, t)
    ensures Took(topo, s, t) && Took(topo, trace.packages, t)
  {
    hide UnitStage, ClustersTaken, View.GroupsSorted, View.Completes, GroupsTaken, Took;
    TookNothing(topo, s);
    TookNothing(topo, trace.packages);
    TookNothing(topo, trace.clusters);
    TookNothing(topo, trace.groups);
    TookNothing(topo, trace.cores);
    ClusterStageTook(topo, prefer, trace.packages, trace.clusters);
    TookTwice(topo, trace.packages, trace.clusters, trace.groups);
    TookTwice(topo, trace.packages, trace.groups, trace.cores);
    TookTwice(topo, trace.packages, trace.cores, t);
    TookTwice(topo, s, trace.packages, t);
  }

  lemma ClusterStageTook(topo: Topo, prefer: CpuPriority, s: State, t: State)
    ensures ClusterStage(topo, prefer, s, t) ==> Took(topo, s, t)
  {
    TookNothing(topo, s);
  }

  /** If a package's CPUs of the preferred priority are all free and fit, a whole package is allocated. */
  lemma IdlePackageIsUsed(topo: Topo, flags: Flags, prefer: CpuPriority, s: State, trace: Trace, t: State, p: int)
    requires Staged(topo, flags, prefer, s, trace, t) && flags.idlePackages && p in topo.packageIds
    requires {} != PackageCpus(topo, prefer, p) <= s.from && |PackageCpus(topo, prefer, p)| <= s.cnt
    ensures exists q :: q in topo.packageIds && {} != PackageCpus(topo, prefer, q) <= t.result
  {
    StagedTook(topo, flags, prefer, s, trace, t);
    hide StagedRest, ClusterStage, GroupStage, PackageCmp, PackageCpus;
    var units := Packages(topo, prefer);
    var u := trace.packages;
    if !(units[p] <= s.from - u.from) {
      assert |TakenBefore(units, PackageCmp(topo, prefer), p, s, u)| > 0;
      var c := Pick(TakenBefore(units, PackageCmp(topo, prefer), p, s, u));
      var q :| q in units && c in units[q];
      TouchedIsTaken(units, PackageCmp(topo, prefer), s, u, q, c);
    }
  }

  /** Threads are taken from packages that have more of the CPUs allocated before than those of threads that are left, or as many. */
  lemma ColocatedFirst(topo: Topo, prefer: CpuPriority, s: State, t: State, c: int, d: int)
    requires ThreadStage(topo, prefer, s, t) && c in s.from - t.from && d in t.from && d in topo.Usable()
    ensures |topo.PkgSet(topo.PackageOf(c)) * s.result| >= |topo.PkgSet(topo.PackageOf(d)) * s.result|
  {
    hide Took, CmpCpuSet;
    var ctx := ThreadContext(topo, s.from, s.result, prefer, s.cnt);
    assert ctx.Order(c, d) < 0;
  }

  /** If some idle cluster alone has enough CPUs, the first one does, and none that does is smaller. */
  lemma TightestClusterFirst(v: View, clusters: seq<Cluster>, ctx: ClusterContext, c: Cluster)
    requires v.ClustersSorted(clusters, ctx) && c in clusters && |v.ClusterCpus(c)| >= v.cnt
    ensures v.cnt <= |v.ClusterCpus(clusters[0])| <= |v.ClusterCpus(c)|
  {
    hide View.CountsClusters, ClusterContext.OrderByDie;
    var i :| 0 <= i < |clusters| && clusters[i] == c;
    assert clusters[0] in clusters;
    if i > 0 {
      assert ctx.Cmp()(clusters[0], clusters[i]) <= 0;
    }
  }

  /** With several kinds of cores, clusters of efficient cores are for low priority and no others are. */
  lemma ClusterKindFits(topo: Topo, prefer: CpuPriority, s: State, t: State, c: int)
    requires topo.kindCount > 1 && ClusterStage(topo, prefer, s, t) && c in s.from - t.from
    ensures exists k :: k in topo.clusters && c in k.cpus && (prefer == LOW <==> k.kind.EfficientCore?)
  {
    assert |topo.clusters| > 1;
    var order, ctx, n :| ClustersTaken(topo, prefer, order, ctx, n, s, t);
    var units := ViewOf(topo, prefer, s).ClusterUnitsOf(order);
    assert order != [] && (|units[0]| == s.cnt || TookFrom(units, s, t));
    var i :| 0 <= i < |order| && c in units[i];
    assert order[i] in order;
  }

  /** So are cache groups. */
  lemma GroupKindFits(topo: Topo, prefer: CpuPriority, s: State, t: State, c: int)
    requires topo.kindCount > 1 && GroupStage(topo, prefer, s, t) && c in s.from - t.from
    ensures exists g :: g in topo.cacheGroups && c in g.cpus && (prefer == LOW <==> g.kind.EfficientCore?)
  {
    hide View.GroupsSorted, View.Completes, GroupsTaken, Took;
    var idle, used, ctx :| GroupsOutcome(topo, prefer, idle, used, ctx, s, t);
    var n, mid :| GroupsTaken(topo, prefer, idle, used, n, mid, s, t);
    var v := ViewOf(topo, prefer, s);
    v.SortedPicks(idle, used, ctx);
    var groups, i := TakenOfGroup(topo, prefer, idle, used, n, mid, s, t, c);
    if groups == idle {
      PickedKind(v, idle, ctx.cpus, Prefer, i);
    } else {
      PickedKind(v, used, ctx.cpus, Usable, i);
    }
  }

  lemma PickedKind(v: View, groups: seq<CacheGroup>, cpus: map<CacheGroup, CpuSet>, verdict: Verdict, i: nat)
    requires v.PicksGroups(groups, cpus, verdict, |v.topo.cacheGroups|) && verdict != Ignore && i < |groups|
    ensures groups[i] in v.topo.cacheGroups && v.KindFits(groups[i].kind)
  {
    v.PicksAll(groups, cpus, verdict);
    assert groups[i] in groups;
  }

  /** A CPU taken from groups is of one of them. */
  lemma TakenOfGroup(topo: Topo, prefer: CpuPriority, idle: seq<CacheGroup>, used: seq<CacheGroup>, n: nat, mid: State, s: State, t: State, c: int)
    returns (groups: seq<CacheGroup>, i: nat)
    requires GroupsTaken(topo, prefer, idle, used, n, mid, s, t) && c in s.from - t.from
    ensures (groups == idle || groups == used) && i < |groups| && c in groups[i].cpus
  {
    hide UnitsGone, Took, Total;
    var v := ViewOf(topo, prefer, s);
    if c in s.from - mid.from {
      groups := idle;
      i :| 0 <= i < n && c in v.FreeUnits(idle)[..n][i];
    } else {
      groups := used;
      assert c in mid.from - t.from;
      var units := v.FreeUnits(used);
      var lead := Leading(used, ChosenPackage(idle, used));
      if k: nat :| IsFirstOfSize(units, lead, k, mid.cnt) && t == mid.Take(units[k]) {
        i := k;
      } else {
        var k: nat :| k <= lead && LeadingTaken(topo, prefer, units, k, mid, t);
        i :| 0 <= i < k && c in units[..k][i];
      }
    }
  }
}

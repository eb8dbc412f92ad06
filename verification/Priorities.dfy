/** CPU priorities and the comparison of CPU sets by them (cpuallocator's cmpCPUSet). */
module Priorities {
  import opened CpuSets
  import opened Ranking

  /** PriorityHigh, PriorityNormal, PriorityLow and PriorityNone. */
  type CpuPriority = p: int | 0 <= p <= 3
  const HIGH: CpuPriority := 0
  const NORMAL: CpuPriority := 1
  const LOW: CpuPriority := 2
  const NONE: CpuPriority := 3

  /** The discovered CPUs of high, normal and low priority. */
  datatype PriorityMap = PriorityMap(high: CpuSet, normal: CpuSet, low: CpuSet) {
    function Of(p: CpuPriority): CpuSet
      requires p < NONE
    {
      if p == HIGH then high else if p == NORMAL then normal else low
    }
  }

  /** How many CPUs of each priority a CPU set has. */
  datatype Counts = Counts(high: nat, normal: nat, low: nat) {
    function Of(p: CpuPriority): nat
      requires p < NONE
    {
      if p == HIGH then high else if p == NORMAL then normal else low
    }
  }

  function CountsOf(prios: PriorityMap, s: CpuSet): Counts {
    Counts(|s * prios.high|, |s * prios.normal|, |s * prios.low|)
  }

  /** The loop that favors priorities from `prefer` downwards. */
  function Favor(a: Counts, b: Counts, prefer: CpuPriority, cpuCnt: int, prio: CpuPriority): (r: (bool, int))
    decreases 3 - prio
  {
    if prio == NONE then (false, 0)
    else
      var prefA, prefB := a.Of(prio), b.Of(prio);
      if cpuCnt > 0 && prio == prefer && prefA >= cpuCnt && prefB >= cpuCnt then (true, prefB - prefA)
      else if prefA != prefB then (true, prefA - prefB)
      else Favor(a, b, prefer, cpuCnt, prio + 1)
  }

  /** The loop that repels priorities above `prefer`. */
  function Repel(a: Counts, b: Counts, prefer: CpuPriority, prio: CpuPriority): int
    requires prio <= prefer < NONE
    decreases prefer - prio
  {
    if prio == prefer then 0
    else if a.Of(prio) != b.Of(prio) then b.Of(prio) - a.Of(prio)
    else Repel(a, b, prefer, prio + 1)
  }

  /** Positive if a is preferred, negative if b is, zero if neither. */
  function CmpCounts(a: Counts, b: Counts, prefer: CpuPriority, cpuCnt: int): int {
    if prefer == NONE then 0
    else if cpuCnt > 0 && prefer == LOW && a.low >= cpuCnt && b.low >= cpuCnt then b.low - a.low
    else if cpuCnt > 0 && prefer == LOW && (a.low >= cpuCnt || b.low >= cpuCnt) then a.low - b.low
    else
      var fallback := a.high == 0 && b.high == 0;
      var prefA := if fallback then a.normal else a.high;
      var prefB := if fallback then b.normal else b.high;
      if cpuCnt > 0 && prefer == HIGH && prefA >= cpuCnt && prefB >= cpuCnt then prefB - prefA
      else if cpuCnt > 0 && prefer == HIGH && (prefA >= cpuCnt || prefB >= cpuCnt) then prefA - prefB
      else
        var (decided, r) := Favor(a, b, prefer, cpuCnt, prefer);
        if decided then r else Repel(a, b, prefer, HIGH)
  }

  function CmpCpuSet(prios: PriorityMap, a: CpuSet, b: CpuSet, prefer: CpuPriority, cpuCnt: int): int {
    CmpCounts(CountsOf(prios, a), CountsOf(prios, b), prefer, cpuCnt)
  }

  /**
   The rank behind the comparison, smaller being preferred. A set with enough CPUs of the preferred
   priority comes first, the tightest fit leading, and other differences do not matter. Otherwise
   more CPUs of the preferred priority are better, then more of the lower ones, then fewer of the
   higher ones. For high priority, sets without any high priority CPU are compared by their normal
   priority CPUs in the same fashion.
   */
  function PriorityRank(c: Counts, prefer: CpuPriority, cpuCnt: int): (r: seq<int>) {
    if prefer == NONE then [0, 0, 0, 0]
    else if cpuCnt > 0 && c.Of(prefer) >= cpuCnt then [0, c.Of(prefer), 0, 0]
    else if cpuCnt > 0 && prefer == HIGH && c.high == 0 then
      if c.normal >= cpuCnt then [2, 0, c.normal, 0] else [2, 1, 0 - c.normal, 0 - c.low]
    else if prefer == HIGH then [1, 0 - c.high, 0 - c.normal, 0 - c.low]
    else if prefer == NORMAL then [1, 0 - c.normal, 0 - c.low, c.high]
    else [1, 0 - c.low, c.high, c.normal]
  }

  lemma FavorFrom(a: Counts, b: Counts, prefer: CpuPriority, cpuCnt: int)
    requires prefer < NONE
    requires cpuCnt <= 0 || a.Of(prefer) < cpuCnt || b.Of(prefer) < cpuCnt
    ensures var (decided, r) := Favor(a, b, prefer, cpuCnt, prefer);
            First(if decided then r else 0, if decided then 0 else Repel(a, b, prefer, HIGH))
            == match prefer
               case 0 => First(a.high - b.high, First(a.normal - b.normal, a.low - b.low))
               case 1 => First(a.normal - b.normal, First(a.low - b.low, b.high - a.high))
               case _ => First(a.low - b.low, First(b.high - a.high, b.normal - a.normal))
  {
    assert Favor(a, b, prefer, cpuCnt, NONE) == (false, 0);
    assert Repel(a, b, prefer, prefer) == 0;
    if prefer == HIGH {
      assert Favor(a, b, prefer, cpuCnt, LOW) == (a.low != b.low, a.low - b.low);
      assert Favor(a, b, prefer, cpuCnt, NORMAL).1 == First(a.normal - b.normal, a.low - b.low);
    } else if prefer == NORMAL {
      assert Favor(a, b, prefer, cpuCnt, LOW) == (a.low != b.low, a.low - b.low);
    } else {
      assert Repel(a, b, prefer, NORMAL) == b.normal - a.normal;
    }
  }

  /**
   Preferring a to b is the same as a's rank coming before b's, for every pair of sets, every
   priority and every requested count: the tightest-fit reversal and the pairwise fallback from
   high to normal priority never make the comparison inconsistent.
   */
  lemma CmpCountsIsRankOrder(a: Counts, b: Counts, prefer: CpuPriority, cpuCnt: int)
    ensures SameSign(-CmpCounts(a, b, prefer, cpuCnt),
                     LexCmp(PriorityRank(a, prefer, cpuCnt), PriorityRank(b, prefer, cpuCnt)))
  {
    hide LexCmp;
    LexOfFour(PriorityRank(a, prefer, cpuCnt), PriorityRank(b, prefer, cpuCnt));
    if prefer < NONE && (cpuCnt <= 0 || a.Of(prefer) < cpuCnt || b.Of(prefer) < cpuCnt) {
      FavorFrom(a, b, prefer, cpuCnt);
    }
  }

  ghost function CpuSetRank(prios: PriorityMap, s: CpuSet, prefer: CpuPriority, cpuCnt: int): seq<int> {
    PriorityRank(CountsOf(prios, s), prefer, cpuCnt)
  }
}

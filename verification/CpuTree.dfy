/**
 Choosing the CPUs a balloon may grow into or shrink from (the chain of resizers in
 cmd/plugins/balloons/policy/cputree.go). Hints decide which CPUs are chosen; whatever the hints
 are, the choice is big enough and stays within the given sets.
 */
module CpuTree {
  import opened CpuSets
  import opened Sorting
  import opened Ranking

  /** Free CPUs to allocate from, and current CPUs to release from. */
  datatype Choice = Choice(addFrom: CpuSet, removeFrom: CpuSet) | Error

  /** A choice has enough free CPUs for growing, or enough current CPUs for shrinking. */
  ghost predicate Fits(choice: Choice, current: CpuSet, free: CpuSet, delta: int) {
    choice.Choice? ==>
      && (delta > 0 ==> choice.addFrom <= free && |choice.addFrom| >= delta)
      && (delta < 0 ==> choice.removeFrom <= current && |choice.removeFrom| >= -delta)
  }

  /** A node of the topology tree: its name, its CPUs and those of the nodes above it, root first. */
  datatype Node = Node(name: string, cpus: CpuSet, above: seq<CpuSet>) {
    function Depth(): nat {
      |above|
    }

    /** How many of the given CPUs the nodes from the root down to this one have. */
    function Counts(s: CpuSet): seq<int> {
      seq(|above|, i requires 0 <= i < |above| => |above[i] * s|) + [|cpus * s|]
    }

    function Letters(): seq<int> {
      seq(|name|, i requires 0 <= i < |name| => name[i] as int)
    }

    predicate Fits(current: CpuSet, free: CpuSet, delta: int) {
      |cpus * free| >= delta && |cpus * current| >= -delta
    }
  }

  // ---- which of the nodes with enough CPUs is best

  /** The deeper node comes first. */
  function DepthCmp(): (Node, Node) -> int {
    (a: Node, b: Node) => b.Depth() - a.Depth()
  }

  /** The first level at which the nodes above have different numbers of the given CPUs decides: more or fewer of them. */
  function CountCmp(s: CpuSet, more: bool): (Node, Node) -> int {
    (a: Node, b: Node) => if more then LexCmp(b.Counts(s), a.Counts(s)) else LexCmp(a.Counts(s), b.Counts(s))
  }

  function NameCmp(up: bool): (Node, Node) -> int {
    (a: Node, b: Node) => if up then LexCmp(a.Letters(), b.Letters()) else LexCmp(b.Letters(), a.Letters())
  }

  /**
   The order for growing prefers nodes where most current CPUs are, and then those with most free CPUs
   if balancing and with fewest if not. The order for shrinking prefers fewest current, then fewest free CPUs.
   */
  function NodeCmp(current: CpuSet, free: CpuSet, grow: bool, balancing: bool): (Node, Node) -> int {
    (a, b) =>
      First(DepthCmp()(a, b), First(CountCmp(current, grow)(a, b),
      First(CountCmp(free, grow && balancing)(a, b), NameCmp(grow)(a, b))))
  }

  lemma NodeCmpLawful(current: CpuSet, free: CpuSet, grow: bool, balancing: bool)
    ensures Lawful(NodeCmp(current, free, grow, balancing))
  {
    hide LexCmp;
    LexLawful(NameCmp(grow), (n: Node) => n.Letters());
    LexLawful(CountCmp(free, grow && balancing), (n: Node) => n.Counts(free));
    LexLawful(CountCmp(current, grow), (n: Node) => n.Counts(current));
    var byFree := (a, b) => First(CountCmp(free, grow && balancing)(a, b), NameCmp(grow)(a, b));
    var byCurrent := (a, b) => First(CountCmp(current, grow)(a, b), byFree(a, b));
    FirstLawful(byFree, CountCmp(free, grow && balancing), NameCmp(grow));
    FirstLawful(byCurrent, CountCmp(current, grow), byFree);
    FirstLawful(NodeCmp(current, free, grow, balancing), DepthCmp(), byCurrent);
  }

  /** Nodes that tie have the same depth, the same CPU counts all the way down, and the same name. */
  lemma NodesTieIff(current: CpuSet, free: CpuSet, grow: bool, balancing: bool, a: Node, b: Node)
    ensures NodeCmp(current, free, grow, balancing)(a, b) == 0 <==>
              a.Depth() == b.Depth() && a.Counts(current) == b.Counts(current) && a.Counts(free) == b.Counts(free) && a.name == b.name
  {
    hide LexCmp;
    LexTotal(a.Counts(current), b.Counts(current));
    LexTotal(b.Counts(current), a.Counts(current));
    LexTotal(a.Counts(free), b.Counts(free));
    LexTotal(b.Counts(free), a.Counts(free));
    LexTotal(a.Letters(), b.Letters());
    LexTotal(b.Letters(), a.Letters());
    SameLetters(a, b);
    assert DepthCmp()(a, b) == 0 <==> a.Depth() == b.Depth();
    assert CountCmp(current, grow)(a, b) == 0 <==> a.Counts(current) == b.Counts(current);
    assert CountCmp(free, grow && balancing)(a, b) == 0 <==> a.Counts(free) == b.Counts(free);
    assert NameCmp(grow)(a, b) == 0 <==> a.name == b.name;
  }

  lemma SameLetters(a: Node, b: Node)
    ensures a.Letters() == b.Letters() <==> a.name == b.name
  {
    if a.Letters() == b.Letters() {
      assert |a.name| == |a.Letters()| == |b.Letters()| == |b.name|;
      forall i | 0 <= i < |a.name| ensures a.name[i] == b.name[i] {
        assert a.Letters()[i] == b.Letters()[i];
      }
      assert a.name == b.name;
    }
  }

  lemma DeeperFirst(current: CpuSet, free: CpuSet, grow: bool, balancing: bool, a: Node, b: Node)
    requires NodeCmp(current, free, grow, balancing)(a, b) <= 0
    ensures b.Depth() <= a.Depth()
  {
    hide LexCmp;
    assert DepthCmp()(a, b) == b.Depth() - a.Depth();
  }

  // ---- the tree

  /** The root has all the CPUs, and each of them is a leaf of its own at the bottom of the tree. */
  ghost predicate IsTree(nodes: seq<Node>, height: nat, cpus: CpuSet) {
    && (exists r :: 0 <= r < |nodes| && cpus <= nodes[r].cpus)
    && (forall i :: 0 <= i < |nodes| ==> nodes[i].Depth() <= height && (nodes[i].Depth() == height ==> |nodes[i].cpus| <= 1))
    && (forall c :: c in cpus ==> HasLeaf(nodes, height, c))
  }

  ghost predicate HasLeaf(nodes: seq<Node>, height: nat, c: int) {
    exists i :: 0 <= i < |nodes| && nodes[i].Depth() == height && c in nodes[i].cpus
  }

  lemma SmallerTree(nodes: seq<Node>, height: nat, cpus: CpuSet, fewer: CpuSet)
    requires IsTree(nodes, height, cpus) && fewer <= cpus
    ensures IsTree(nodes, height, fewer)
  {
    var r :| 0 <= r < |nodes| && cpus <= nodes[r].cpus;
    assert fewer <= nodes[r].cpus;
  }

  /** There are enough CPUs for the change, and the tree has them all. */
  ghost predicate Possible(nodes: seq<Node>, height: nat, current: CpuSet, free: CpuSet, delta: int) {
    IsTree(nodes, height, current + free) && current !! free && delta <= |free| && -delta <= |current|
  }

  // ---- hints

  /** Free CPUs narrowed by those of the hints, in order, that leave enough of them. */
  function Narrow(free: CpuSet, hint: seq<CpuSet>, delta: int): CpuSet {
    if hint == [] then free
    else
      var rest, last := Narrow(free, hint[..|hint|-1], delta), hint[|hint|-1];
      if |rest * last| >= delta then rest * last else rest
  }

  function NarrowAll(free: CpuSet, hints: seq<seq<CpuSet>>, delta: int): CpuSet {
    if hints == [] then free else Narrow(NarrowAll(free, hints[..|hints|-1], delta), hints[|hints|-1], delta)
  }

  lemma {:induction false} NarrowIsEnough(free: CpuSet, hint: seq<CpuSet>, delta: int)
    ensures Narrow(free, hint, delta) <= free && (|free| >= delta ==> |Narrow(free, hint, delta)| >= delta)
  {
    if hint != [] {
      NarrowIsEnough(free, hint[..|hint|-1], delta);
    }
  }

  lemma {:induction false} NarrowAllIsEnough(free: CpuSet, hints: seq<seq<CpuSet>>, delta: int)
    ensures NarrowAll(free, hints, delta) <= free && (|free| >= delta ==> |NarrowAll(free, hints, delta)| >= delta)
  {
    if hints != [] {
      NarrowAllIsEnough(free, hints[..|hints|-1], delta);
      NarrowIsEnough(NarrowAll(free, hints[..|hints|-1], delta), hints[|hints|-1], delta);
    }
  }

  /** A hint is followed, or too few of the remaining CPUs would follow it. */
  predicate Settled(remaining: CpuSet, hint: CpuSet, delta: int) {
    remaining <= hint || |remaining * hint| < delta
  }

  lemma StaysSettled(remaining: CpuSet, fewer: CpuSet, hint: CpuSet, delta: int)
    requires Settled(remaining, hint, delta) && fewer <= remaining
    ensures Settled(fewer, hint, delta)
  {
    SubsetSize(fewer * hint, remaining * hint);
  }

  lemma {:induction false} NarrowSettles(free: CpuSet, hint: seq<CpuSet>, delta: int, j: nat)
    requires j < |hint|
    ensures Settled(Narrow(free, hint, delta), hint[j], delta)
  {
    if j < |hint| - 1 {
      var init := hint[..|hint|-1];
      NarrowSettles(free, init, delta, j);
      assert init[j] == hint[j];
      StaysSettled(Narrow(free, init, delta), Narrow(free, hint, delta), hint[j], delta);
    }
  }

  /** No hint could narrow the CPUs any further. */
  lemma {:induction false} HintsAreSettled(free: CpuSet, hints: seq<seq<CpuSet>>, delta: int, i: nat, j: nat)
    requires i < |hints| && j < |hints[i]|
    ensures Settled(NarrowAll(free, hints, delta), hints[i][j], delta)
  {
    var init, last := hints[..|hints|-1], hints[|hints|-1];
    if i < |hints| - 1 {
      HintsAreSettled(free, init, delta, i, j);
      NarrowIsEnough(NarrowAll(free, init, delta), last, delta);
      StaysSettled(NarrowAll(free, init, delta), NarrowAll(free, hints, delta), hints[i][j], delta);
    } else {
      NarrowSettles(NarrowAll(free, init, delta), last, delta, j);
    }
  }

  /** The weight of those of the first n sets that have the CPU. */
  function Weigh(sets: seq<CpuSet>, n: nat, weight: int, c: int): int
    requires n <= |sets|
  {
    if n == 0 then 0 else Weigh(sets, n - 1, weight, c) + if c in sets[n-1] then weight else 0
  }

  /** The first n hints for a CPU; each set of a hint weighs twice as much as one of the next hint. */
  function HintValue(hints: seq<seq<CpuSet>>, n: nat, c: int): int
    requires n <= |hints|
  {
    if n == 0 then 0 else HintValue(hints, n - 1, c) + Weigh(hints[n-1], |hints[n-1]|, Pow2(|hints| - n), c)
  }

  /** CPUs with fewer hints than that. */
  ghost function Below(hints: seq<seq<CpuSet>>, current: CpuSet, value: int): CpuSet {
    set c | c in current && HintValue(hints, |hints|, c) < value
  }

  ghost function At(hints: seq<seq<CpuSet>>, current: CpuSet, value: int): CpuSet {
    set c | c in current && HintValue(hints, |hints|, c) == value
  }

  class Allocator {
    const nodes: seq<Node>             // nodes of the topology tree
    ghost const height: nat            // depth of its leaves
    const balancing: bool              // prefer nodes with many free CPUs
    const spread: bool                 // prefer spreading on physical cores
    const dynamic: bool                // device hints change with every allocated CPU
    const devices: CpuSet -> seq<seq<CpuSet>> // the hints these CPUs lead to then
    var hints: seq<seq<CpuSet>>        // CPU sets to prefer, most important first

    constructor (nodes: seq<Node>, ghost height: nat, balancing: bool, spread: bool, dynamic: bool,
                 devices: CpuSet -> seq<seq<CpuSet>>, hints: seq<seq<CpuSet>>)
      ensures this.nodes == nodes && this.height == height && this.balancing == balancing
      ensures this.spread == spread && this.dynamic == dynamic && this.devices == devices && this.hints == hints
    {
      this.nodes, this.height, this.balancing := nodes, height, balancing;
      this.spread, this.dynamic, this.devices, this.hints := spread, dynamic, devices, hints;
    }

    /** The CPUs of the best node, or an error if no node has enough of them. */
    ghost predicate IsLocal(r: Choice, current: CpuSet, free: CpuSet, delta: int) {
      if r.Error? then forall n :: n in nodes ==> !n.Fits(current, free, delta) else IsBest(r, current, free, delta)
    }

    /** CPUs taken one after the other, each the best one at its time. */
    ghost predicate Grown(current: CpuSet, free: CpuSet, order: seq<int>) {
      forall k :: 0 <= k < |order| ==> GrownBy(current + Elements(order[..k]), free - Elements(order[..k]), order[k])
    }

    ghost predicate GrownBy(current: CpuSet, free: CpuSet, c: int) {
      exists removeFrom :: IsBest(Choice({c}, removeFrom), current, free, 1)
    }

    ghost predicate Shrunk(current: CpuSet, free: CpuSet, order: seq<int>) {
      forall k :: 0 <= k < |order| ==> ShrunkBy(current - Elements(order[..k]), free + Elements(order[..k]), order[k])
    }

    ghost predicate ShrunkBy(current: CpuSet, free: CpuSet, c: int) {
      exists addFrom :: IsBest(Choice(addFrom, {c}), current, free, -1)
    }

    ghost predicate GrownTo(r: Choice, current: CpuSet, free: CpuSet, delta: int)
      requires r.Choice?
    {
      exists order :: |order| == delta && Elements(order) == r.addFrom && Grown(current, free, order)
    }

    ghost predicate ShrunkTo(r: Choice, current: CpuSet, free: CpuSet, delta: int)
      requires r.Choice?
    {
      exists order :: |order| == -delta && Elements(order) == r.removeFrom && Shrunk(current, free, order)
    }

    /** Growing takes a best node, unless it spreads and the node has more than is wanted; the rest goes CPU by CPU. */
    ghost predicate Chosen(r: Choice, current: CpuSet, free: CpuSet, delta: int) {
      if delta > 0 then exists local :: IsLocal(local, current, free, delta) && FromLocal(r, local, current, free, delta)
      else r.Choice? ==> r.addFrom == {} && ShrunkTo(r, current, free, delta)
    }

    ghost predicate FromLocal(r: Choice, local: Choice, current: CpuSet, free: CpuSet, delta: int) {
      if !spread || |if local.Choice? then local.addFrom else free| == delta then r == local
      else r.Choice? ==>
        && r.removeFrom == (if local.Choice? then local.removeFrom else current)
        && GrownTo(r, current, free, delta)
    }

    /** Hints narrow the free CPUs when growing; when shrinking, CPUs with the fewest hints go first. */
    ghost predicate Hinted(hints: seq<seq<CpuSet>>, r: Choice, current: CpuSet, free: CpuSet, delta: int) {
      if hints == [] then Chosen(r, current, free, delta)
      else if delta > 0 then Chosen(r, current, NarrowAll(free, hints, delta), delta)
      else exists value, local :: HintedAt(hints, value, local, r, current, free, delta)
    }

    ghost predicate HintedAt(hints: seq<seq<CpuSet>>, value: int, local: Choice, r: Choice, current: CpuSet, free: CpuSet, delta: int) {
      var sure, maybe := Below(hints, current, value), At(hints, current, value);
      && |sure| <= -delta < |sure| + |maybe|
      && Chosen(local, maybe, free, delta + |sure|)
      && if local.Error? then r == Error
         else r.Choice? && r.addFrom == free && |r.removeFrom| == -delta && sure <= r.removeFrom <= sure + local.removeFrom
    }

    ghost function MinOfChoice(r: Choice): int
      requires r.Choice? && r.addFrom != {}
    {
      MinOf(r.addFrom)
    }

    /** Each CPU is the first of a choice, the first choice being for all, and the next ones for one CPU more. */
    ghost predicate Added(current: CpuSet, free: CpuSet, delta: int, order: seq<int>, choices: seq<Choice>) {
      && |choices| == |order| + 1 && Hinted(devices(current), choices[0], current, free, delta)
      && (forall k :: 0 <= k < |choices| ==> choices[k].Choice? && choices[k].addFrom != {})
      && (forall k :: 0 <= k < |order| ==> order[k] == MinOfChoice(choices[k]))
      && (forall k :: 0 < k < |choices| ==> AddedNext(current, free, order[..k], choices[k]))
    }

    /** The choice of one more CPU when some have been added. */
    ghost predicate AddedNext(current: CpuSet, free: CpuSet, order: seq<int>, r: Choice) {
      var next := current + Elements(order);
      Hinted(devices(next), r, next, free - next, 1)
    }

    ghost predicate IsAdded(order: seq<int>, choices: seq<Choice>, r: Choice, current: CpuSet, free: CpuSet, delta: int) {
      && 0 < delta == |order| == |choices| && Added(current, free, delta, order[..delta-1], choices)
      && order[delta-1] == MinOfChoice(choices[delta-1])
      && r == Choice(Elements(order) + choices[delta-1].addFrom, choices[delta-1].removeFrom)
    }

    ghost predicate AddedTo(r: Choice, current: CpuSet, free: CpuSet, delta: int) {
      exists order, choices :: IsAdded(order, choices, r, current, free, delta)
    }

    /** The hints given, or those that current CPUs lead to if these change with every CPU. */
    ghost predicate DynamicallyHinted(hints: seq<seq<CpuSet>>, r: Choice, current: CpuSet, free: CpuSet, delta: int) {
      if !dynamic then Hinted(hints, r, current, free, delta)
      else if delta < 0 then Hinted(devices(current), r, current, free, delta)
      else r.Choice? ==> AddedTo(r, current, free, delta)
    }

    /** The fast path for trivial cases, and failure if resizing is not possible. */
    method ResizeCpus(current: CpuSet, free: CpuSet, delta: int) returns (r: Choice)
      modifies this`hints
      ensures Fits(r, current, free, delta)
      ensures r.Choice? && delta > 0 ==> delta <= |free|
      ensures r.Choice? && delta < 0 ==> -delta <= |current|
      ensures Possible(nodes, height, current, free, delta) ==> r.Choice?
      ensures delta == 0 ==> r == Choice({}, {})
      ensures 0 < delta == |free| ==> r == Choice(free, {})
      ensures 0 < -delta == |current| ==> r == Choice({}, current)
      ensures delta > |free| || -delta > |current| ==> r == Error
      ensures 0 < delta < |free| || 0 < -delta < |current| ==> DynamicallyHinted(old(hints), r, current, free, delta)
    {
      if delta == 0 {
        return Choice({}, {});
      }
      if delta > 0 {
        if |free| < delta {
          return Error;
        }
        if |free| == delta {
          return Choice(free, {});
        }
      } else {
        if |current| < -delta {
          return Error;
        }
        if |current| == -delta {
          return Choice({}, current);
        }
      }
      r := WithDynamicHints(current, free, delta);
    }

    /** Device hints are updated by an outside callback. */
    method UpdateDevices(current: CpuSet)
      modifies this`hints
      ensures hints == devices(current)
    {
      hints := devices(current);
    }

    /** Allocates one CPU at a time if every CPU may change the hints. */
    method WithDynamicHints(current: CpuSet, free: CpuSet, delta: int) returns (r: Choice)
      requires delta < 0 ==> -delta < |current|
      requires delta != 0
      modifies this`hints
      ensures Fits(r, current, free, delta)
      ensures Possible(nodes, height, current, free, delta) ==> r.Choice?
      ensures DynamicallyHinted(old(hints), r, current, free, delta)
    {
      hide Hinted, Possible;
      if dynamic {
        UpdateDevices(current);
      }
      r := WithDevices(current, free, delta);
      if dynamic && delta > 0 && r.Choice? {
        r := AddOneByOne(current, free, delta, r);
      }
    }

    /** Takes the first CPU of a choice, and chooses anew with the hints that leads to. */
    method AddOneByOne(current0: CpuSet, free0: CpuSet, delta: int, first: Choice) returns (r: Choice)
      requires delta > 0 && first.Choice? && Fits(first, current0, free0, delta)
      requires Hinted(devices(current0), first, current0, free0, delta)
      modifies this`hints
      ensures Fits(r, current0, free0, delta)
      ensures Possible(nodes, height, current0, free0, delta) ==> r.Choice?
      ensures r.Choice? ==> AddedTo(r, current0, free0, delta)
    {
      hide Possible, Hinted, Added, Elements;
      r := first;
      var current, free, added := current0, free0, {};
      ghost var order: seq<int>, choices := [], [first];
      assert first.addFrom != {};
      FirstAdded(current0, free0, delta, first);
      while true
        invariant Elements(order) == added && |order| == |added| && |choices| == |order| + 1
        invariant Added(current0, free0, delta, order, choices) && choices[|order|] == r
        invariant free0 - current <= free
        invariant r.Choice? && r.addFrom <= free && |r.addFrom| >= 1
        invariant free <= free0 && added !! free && added <= free0 && |added| < delta
        invariant current == current0 + added && (current0 !! free0 ==> free == free0 - added)
        decreases delta - |added|
      {
        var cpu := FindMin(r.addFrom);
        MoreElements(order, cpu);
        order := order + [cpu];
        added := added + {cpu};
        if |added| >= delta {
          break;
        }
        current := current + {cpu};
        free := free - current;
        assert free == free0 - current;
        UpdateDevices(current);
        if Possible(nodes, height, current0, free0, delta) {
          PossibleIsApart(current0, free0, delta);
          NextIsPossible(current0, free0, delta, added, current, free);
        }
        r := WithDevices(current, free, 1);
        if r.Error? {
          return;
        }
        assert r.addFrom != {};
        NextAdded(current0, free0, delta, order, choices, current, r);
        choices := choices + [r];
      }
      SubsetSize(added, added + r.addFrom);
      LastAdded(current0, free0, delta, order, choices, Choice(added + r.addFrom, r.removeFrom));
      r := Choice(added + r.addFrom, r.removeFrom);
    }

    lemma MoreElements(order: seq<int>, c: int)
      ensures Elements(order + [c]) == Elements(order) + {c}
    {
    }

    lemma FirstAdded(current: CpuSet, free: CpuSet, delta: int, first: Choice)
      requires first.Choice? && first.addFrom != {} && Hinted(devices(current), first, current, free, delta)
      ensures Added(current, free, delta, [], [first]) && Elements<int>([]) == {}
    {
      hide Hinted, AddedNext;
    }

    lemma NextAdded(current: CpuSet, free: CpuSet, delta: int, order: seq<int>, choices: seq<Choice>, next: CpuSet, r: Choice)
      requires order != [] && |choices| == |order| && Added(current, free, delta, order[..|order|-1], choices)
      requires order[|order|-1] == MinOfChoice(choices[|order|-1]) && r.Choice? && r.addFrom != {}
      requires next == current + Elements(order) && Hinted(devices(next), r, next, free - next, 1)
      ensures Added(current, free, delta, order, choices + [r])
    {
      hide Hinted, Elements;
      var n, more := |order|, choices + [r];
      forall k | 0 < k < |more| ensures AddedNext(current, free, order[..k], more[k]) {
        if k < n {
          assert order[..n-1][..k] == order[..k] && more[k] == choices[k];
        } else {
          assert order[..n] == order;
        }
      }
      forall k | 0 <= k < n ensures order[k] == MinOfChoice(more[k]) {
        if k < n - 1 {
          assert order[..n-1][k] == order[k] && more[k] == choices[k];
        }
      }
    }

    lemma LastAdded(current: CpuSet, free: CpuSet, delta: int, order: seq<int>, choices: seq<Choice>, r: Choice)
      requires 0 < |order| == delta == |choices| && Added(current, free, delta, order[..delta-1], choices)
      requires order[delta-1] == MinOfChoice(choices[delta-1])
      requires r == Choice(Elements(order) + choices[delta-1].addFrom, choices[delta-1].removeFrom)
      ensures AddedTo(r, current, free, delta)
    {
      hide Added, Elements;
      assert IsAdded(order, choices, r, current, free, delta);
    }

    lemma PossibleIsApart(current: CpuSet, free: CpuSet, delta: int)
      requires Possible(nodes, height, current, free, delta)
      ensures current !! free
    {
    }

    lemma NextIsPossible(current0: CpuSet, free0: CpuSet, delta: int, added: CpuSet, current: CpuSet, free: CpuSet)
      requires Possible(nodes, height, current0, free0, delta) && added <= free0 && |added| < delta
      requires current == current0 + added && free == free0 - added
      ensures Possible(nodes, height, current, free, 1)
    {
      assert current + free == current0 + free0;
      DisjointUnionSize(added, free);
      assert added + free == free0;
    }

    /** Narrows the free CPUs by as many hints as leave enough of them. */
    method NarrowByHints(free: CpuSet, delta: int) returns (remaining: CpuSet)
      requires delta > 0
      ensures remaining <= free && (|free| >= delta ==> |remaining| >= delta)
      ensures remaining == NarrowAll(free, hints, delta)
    {
      remaining := free;
      for i := 0 to |hints|
        invariant remaining == NarrowAll(free, hints[..i], delta)
      {
        ghost var before := remaining;
        for j := 0 to |hints[i]|
          invariant remaining == Narrow(before, hints[i][..j], delta)
        {
          assert hints[i][..j+1][..j] == hints[i][..j];
          if |remaining * hints[i][j]| >= delta {
            remaining := remaining * hints[i][j];
          }
        }
        assert hints[i][..|hints[i]|] == hints[i] && hints[..i+1][..i] == hints[..i];
      }
      assert hints[..|hints|] == hints;
      NarrowAllIsEnough(free, hints, delta);
    }

    /** Prefers CPUs close to devices when growing, releases CPUs far from them when shrinking. */
    method WithDevices(current: CpuSet, free: CpuSet, delta: int) returns (r: Choice)
      requires delta < 0 ==> -delta < |current|
      requires delta != 0
      ensures Fits(r, current, free, delta)
      ensures Possible(nodes, height, current, free, delta) ==> r.Choice?
      ensures Hinted(hints, r, current, free, delta)
    {
      hide Chosen, IsTree, NarrowAll, HintValue;
      if |hints| == 0 {
        r := OneAtATime(current, free, delta);
      } else if delta > 0 {
        var remaining := NarrowByHints(free, delta);
        if Possible(nodes, height, current, free, delta) {
          SmallerTree(nodes, height, current + free, current + remaining);
        }
        r := OneAtATime(current, remaining, delta);
      } else {
        var sure, maybe;
        ghost var value;
        sure, maybe, value := LeastHinted(current, delta);
        if Possible(nodes, height, current, free, delta) {
          SmallerTree(nodes, height, current + free, maybe + free);
        }
        var local := OneAtATime(maybe, free, delta + |sure|);
        r := local;
        if local.Choice? {
          var more := TakeSome(local.removeFrom, -delta - |sure|);
          DisjointUnionSize(sure, more);
          r := Choice(free, sure + more);
        }
        assert HintedAt(hints, value, local, r, current, free, delta);
      }
    }

    /** Adds up the weights of the hints for each CPU. */
    method HintValues(current: CpuSet) returns (value: map<int, int>)
      ensures value.Keys == current && forall c :: c in current ==> value[c] == HintValue(hints, |hints|, c)
    {
      value := map c | c in current :: 0;
      for i := 0 to |hints|
        invariant value.Keys == current && forall c :: c in current ==> value[c] == HintValue(hints, i, c)
      {
        for j := 0 to |hints[i]|
          invariant value.Keys == current
          invariant forall c :: c in current ==>
                      value[c] == HintValue(hints, i, c) + Weigh(hints[i], j, Pow2(|hints| - 1 - i), c)
        {
          var cpus, weight := hints[i][j], Pow2(|hints| - 1 - i);
          value := map c | c in current :: value[c] + if c in cpus then weight else 0;
        }
      }
    }

    method SortByValue(current: CpuSet, value: map<int, int>) returns (least: seq<int>)
      ensures Distinct(least) && Ordered(least, ByValue(value)) && Elements(least) == current
    {
      var list := SortedList(current);
      ByValueLawful(value);
      least := Sort(list, ByValue(value));
      PermutationKeepsDistinct(list, least);
      forall c ensures c in Elements(least) <==> c in current {
        assert c in least <==> c in list;
      }
    }

    /**
     Splits off the CPUs with the fewest hints. With CPUs sorted by hint value, the ones below the
     value at position -delta are to be released for sure, the ones of that value maybe.
     */
    method LeastHinted(current: CpuSet, delta: int) returns (sure: CpuSet, maybe: CpuSet, ghost at: int)
      requires delta < 0 && -delta < |current|
      ensures sure <= current && maybe <= current && sure !! maybe
      ensures |sure| <= -delta < |sure| + |maybe|
      ensures sure == Below(hints, current, at) && maybe == At(hints, current, at)
    {
      hide Ordered, Distinct, HintValue;
      var value := HintValues(current);
      var least := SortByValue(current, value);
      DistinctElements(least);
      var maxHints := ValueOf(value, least[-delta]);
      sure := set c | c in current && ValueOf(value, c) < maxHints;
      maybe := set c | c in current && ValueOf(value, c) == maxHints;
      at := maxHints;
      SplitAt(value, least, current, -delta, sure, maybe);
    }

    /** Members below the value at position n come before that position. */
    lemma BelowComesBefore(value: map<int, int>, least: seq<int>, n: nat, sure: CpuSet)
      requires Distinct(least) && Ordered(least, ByValue(value)) && n < |least|
      requires forall c :: c in sure ==> c in least && ValueOf(value, c) < ValueOf(value, least[n])
      ensures |sure| <= n
    {
      var before := least[..n];
      DistinctElements(before);
      forall c | c in sure ensures c in Elements(before) {
        var k :| 0 <= k < |least| && least[k] == c;
        assert k < n && before[k] == c;
      }
      SubsetSize(sure, Elements(before));
    }

    /** Members up to position n have at most the value there. */
    lemma UpToHasAtMost(value: map<int, int>, least: seq<int>, n: nat, both: CpuSet)
      requires Distinct(least) && Ordered(least, ByValue(value)) && n < |least|
      requires forall c :: c in least && ValueOf(value, c) <= ValueOf(value, least[n]) ==> c in both
      ensures |both| > n
    {
      var upTo := least[..n+1];
      DistinctElements(upTo);
      forall c | c in Elements(upTo) ensures c in both {
        var k :| 0 <= k < |upTo| && upTo[k] == c;
        assert least[k] == c;
        if k < n {
          assert ByValue(value)(least[k], least[n]) <= 0;
        }
      }
      SubsetSize(Elements(upTo), both);
    }

    lemma SplitAt(value: map<int, int>, least: seq<int>, current: CpuSet, n: nat, sure: CpuSet, maybe: CpuSet)
      requires Distinct(least) && Ordered(least, ByValue(value)) && n < |least| && Elements(least) == current
      requires sure == set c | c in current && ValueOf(value, c) < ValueOf(value, least[n])
      requires maybe == set c | c in current && ValueOf(value, c) == ValueOf(value, least[n])
      ensures |sure| <= n < |sure| + |maybe|
    {
      forall c ensures c in least <==> c in current {
        assert c in Elements(least) <==> c in least;
      }
      BelowComesBefore(value, least, n, sure);
      UpToHasAtMost(value, least, n, sure + maybe);
      DisjointUnionSize(sure, maybe);
    }

    /**
     Grows as a whole or, if spreading, CPU by CPU, also when no node has enough CPUs for the whole;
     always shrinks CPU by CPU.
     */
    method OneAtATime(current: CpuSet, free: CpuSet, delta: int) returns (r: Choice)
      ensures Fits(r, current, free, delta)
      ensures Possible(nodes, height, current, free, delta) ==> r.Choice?
      ensures Chosen(r, current, free, delta)
    {
      hide IsBest, Possible, GrownTo, ShrunkTo;
      if delta > 0 {
        var local := MaxLocalSet(current, free, delta);
        r := local;
        var superset := if r.Choice? then r.addFrom else free;
        if spread && |superset| != delta {
          r := GrowOneByOne(current, free, delta, if r.Choice? then r.removeFrom else current);
        }
        assert IsLocal(local, current, free, delta) && FromLocal(r, local, current, free, delta);
      } else {
        r := ShrinkOneByOne(current, free, delta);
      }
    }

    method GrowOneByOne(current0: CpuSet, free0: CpuSet, delta: int, removeFrom: CpuSet) returns (r: Choice)
      requires delta > 0
      ensures Fits(r, current0, free0, delta)
      ensures Possible(nodes, height, current0, free0, delta) ==> r.Choice?
      ensures r.Choice? ==> r.removeFrom == removeFrom && GrownTo(r, current0, free0, delta)
    {
      hide Possible, IsBest, Grown, Elements;
      var current, free, addFrom: CpuSet := current0, free0, {};
      ghost var order: seq<int> := [];
      NoneGrown(current, free);
      for n := 0 to delta
        invariant |addFrom| == n && addFrom <= free0 && free == free0 - addFrom && current == current0 + addFrom
        invariant |order| == n && Elements(order) == addFrom && Grown(current0, free0, order)
      {
        if Possible(nodes, height, current0, free0, delta) {
          NextIsPossible(current0, free0, delta, addFrom, current, free);
        }
        var one := MaxLocalSet(current, free, 1);
        if one.Choice? {
          DisjointUnionSize(addFrom, one.addFrom);
        }
        if one.Error? || |one.addFrom| != 1 || |addFrom + one.addFrom| != n + 1 {
          return Error;
        }
        ghost var c := GrowNext(current0, free0, order, one);
        order := order + [c];
        addFrom := addFrom + one.addFrom;
        current, free := current + one.addFrom, free - one.addFrom;
      }
      r := Choice(addFrom, removeFrom);
    }

    lemma NoneGrown(current: CpuSet, free: CpuSet)
      ensures Grown(current, free, []) && Shrunk(current, free, []) && Elements<int>([]) == {}
    {
    }

    lemma GrowNext(current: CpuSet, free: CpuSet, order: seq<int>, one: Choice) returns (c: int)
      requires Grown(current, free, order) && one.Choice? && |one.addFrom| == 1
      requires IsBest(one, current + Elements(order), free - Elements(order), 1)
      ensures one.addFrom == {c} && Grown(current, free, order + [c]) && Elements(order + [c]) == Elements(order) + {c}
    {
      hide IsBest;
      c := Only(one.addFrom);
      var next := order + [c];
      forall k | 0 <= k < |next| ensures GrownBy(current + Elements(next[..k]), free - Elements(next[..k]), next[k]) {
        assert next[..k] == order[..k];
        if k == |order| {
          assert order[..k] == order && one == Choice({c}, one.removeFrom);
        }
      }
    }

    lemma ShrinkNext(current: CpuSet, free: CpuSet, order: seq<int>, one: Choice) returns (c: int)
      requires Shrunk(current, free, order) && one.Choice? && |one.removeFrom| == 1
      requires IsBest(one, current - Elements(order), free + Elements(order), -1)
      ensures one.removeFrom == {c} && Shrunk(current, free, order + [c]) && Elements(order + [c]) == Elements(order) + {c}
    {
      hide IsBest;
      c := Only(one.removeFrom);
      var next := order + [c];
      forall k | 0 <= k < |next| ensures ShrunkBy(current - Elements(next[..k]), free + Elements(next[..k]), next[k]) {
        assert next[..k] == order[..k];
        if k == |order| {
          assert order[..k] == order && one == Choice(one.addFrom, {c});
        }
      }
    }

    lemma Only(s: CpuSet) returns (c: int)
      requires |s| == 1
      ensures s == {c}
    {
      c := Pick(s);
      SubsetOfSameSize({c}, s);
    }

    method ShrinkOneByOne(current0: CpuSet, free0: CpuSet, delta: int) returns (r: Choice)
      requires delta <= 0
      ensures Fits(r, current0, free0, delta)
      ensures Possible(nodes, height, current0, free0, delta) ==> r.Choice?
      ensures r.Choice? ==> r.addFrom == {} && ShrunkTo(r, current0, free0, delta)
    {
      hide Possible, IsBest, Shrunk, Elements;
      var current, free, removeFrom: CpuSet := current0, free0, {};
      ghost var order: seq<int> := [];
      NoneGrown(current, free);
      for n := 0 to -delta
        invariant |removeFrom| == n && removeFrom <= current0 && current == current0 - removeFrom && free == free0 + removeFrom
        invariant |order| == n && Elements(order) == removeFrom && Shrunk(current0, free0, order)
      {
        if Possible(nodes, height, current0, free0, delta) {
          NextReleaseIsPossible(current0, free0, delta, removeFrom, current, free);
        }
        var one := MaxLocalSet(current, free, -1);
        if one.Choice? {
          DisjointUnionSize(removeFrom, one.removeFrom);
        }
        if one.Error? || |one.removeFrom| != 1 || |removeFrom + one.removeFrom| != n + 1 {
          return Error;
        }
        ghost var c := ShrinkNext(current0, free0, order, one);
        order := order + [c];
        removeFrom := removeFrom + one.removeFrom;
        current, free := current - one.removeFrom, free + one.removeFrom;
      }
      r := Choice({}, removeFrom);
    }

    lemma NextReleaseIsPossible(current0: CpuSet, free0: CpuSet, delta: int, removed: CpuSet, current: CpuSet, free: CpuSet)
      requires Possible(nodes, height, current0, free0, delta) && removed <= current0 && |removed| < -delta
      requires current == current0 - removed && free == free0 + removed
      ensures Possible(nodes, height, current, free, -1)
    {
      assert current + free == current0 + free0;
      DisjointUnionSize(removed, current);
      assert removed + current == current0;
    }

    /** The CPUs of the best of the tree nodes that have enough of them. */
    method MaxLocalSet(current: CpuSet, free: CpuSet, delta: int) returns (r: Choice)
      ensures Fits(r, current, free, delta)
      ensures r.Error? <==> forall n :: n in nodes ==> !n.Fits(current, free, delta)
      ensures r.Choice? ==> IsBest(r, current, free, delta)
      ensures Possible(nodes, height, current, free, delta) ==> r.Choice?
      ensures Possible(nodes, height, current, free, delta) && delta == 1 ==> |r.addFrom| == 1
      ensures Possible(nodes, height, current, free, delta) && delta == -1 ==> |r.removeFrom| == 1
    {
      hide Lawful, NodeCmp, Node.Fits, IsTree;
      var fitting := Fitting(current, free, delta);
      if Possible(nodes, height, current, free, delta) {
        RootFits(current, free, delta);
      }
      if |fitting| == 0 {
        return Error;
      }
      NodeCmpLawful(current, free, delta > 0, balancing);
      var sorted := Sort(fitting, NodeCmp(current, free, delta > 0, balancing));
      var best := sorted[0];
      FirstIsBest(fitting, sorted, current, free, delta);
      r := Choice(best.cpus * free, best.cpus * current);
      assert best.Fits(current, free, delta);
      FittingFits(best, current, free, delta);
      if Possible(nodes, height, current, free, delta) && (delta == 1 || delta == -1) {
        DeepestIsLeaf(current, free, delta, best);
      }
    }

    /** Tree nodes that have enough CPUs. */
    method Fitting(current: CpuSet, free: CpuSet, delta: int) returns (r: seq<Node>)
      ensures forall n :: n in r <==> n in nodes && n.Fits(current, free, delta)
    {
      r := [];
      for i := 0 to |nodes|
        invariant forall n :: n in r <==> n in nodes[..i] && n.Fits(current, free, delta)
      {
        assert nodes[..i+1] == nodes[..i] + [nodes[i]];
        if nodes[i].Fits(current, free, delta) {
          r := r + [nodes[i]];
        }
      }
      assert nodes[..|nodes|] == nodes;
    }

    lemma FittingFits(n: Node, current: CpuSet, free: CpuSet, delta: int)
      requires n.Fits(current, free, delta)
      ensures Fits(Choice(n.cpus * free, n.cpus * current), current, free, delta)
    {
    }

    lemma FirstIsBest(fitting: seq<Node>, sorted: seq<Node>, current: CpuSet, free: CpuSet, delta: int)
      requires fitting != [] && IsSortOf(fitting, sorted, NodeCmp(current, free, delta > 0, balancing))
      requires forall n :: n in fitting <==> n in nodes && n.Fits(current, free, delta)
      ensures sorted != [] && sorted[0] in nodes && sorted[0].Fits(current, free, delta)
      ensures forall n :: n in nodes && n.Fits(current, free, delta) ==>
                NodeCmp(current, free, delta > 0, balancing)(sorted[0], n) <= 0 && n.Depth() <= sorted[0].Depth()
    {
      hide NodeCmp, Lawful, IsSortOf, Node.Fits;
      NodeCmpLawful(current, free, delta > 0, balancing);
      FirstOfSort(fitting, sorted, NodeCmp(current, free, delta > 0, balancing));
      forall n | n in nodes && n.Fits(current, free, delta) ensures n.Depth() <= sorted[0].Depth() {
        DeeperFirst(current, free, delta > 0, balancing, sorted[0], n);
      }
    }

    ghost predicate IsBest(r: Choice, current: CpuSet, free: CpuSet, delta: int) {
      exists best :: best in nodes && best.Fits(current, free, delta) && r == Choice(best.cpus * free, best.cpus * current) &&
        forall n :: n in nodes && n.Fits(current, free, delta) ==> NodeCmp(current, free, delta > 0, balancing)(best, n) <= 0
    }

    lemma RootFits(current: CpuSet, free: CpuSet, delta: int)
      requires Possible(nodes, height, current, free, delta)
      ensures exists n :: n in nodes && n.Fits(current, free, delta)
    {
      var r :| 0 <= r < |nodes| && current + free <= nodes[r].cpus;
      assert nodes[r].cpus * free == free && nodes[r].cpus * current == current;
      assert nodes[r] in nodes && nodes[r].Fits(current, free, delta);
    }

    /** For a single CPU a deepest node that fits is a leaf. */
    lemma DeepestIsLeaf(current: CpuSet, free: CpuSet, delta: int, best: Node)
      requires Possible(nodes, height, current, free, delta) && (delta == 1 || delta == -1)
      requires best in nodes && best.Fits(current, free, delta)
      requires forall n :: n in nodes && n.Fits(current, free, delta) ==> n.Depth() <= best.Depth()
      ensures delta == 1 ==> |best.cpus * free| == 1
      ensures delta == -1 ==> |best.cpus * current| == 1
    {
      var wanted := if delta == 1 then free else current;
      var c := Pick(wanted);
      assert HasLeaf(nodes, height, c);
      var i :| 0 <= i < |nodes| && nodes[i].Depth() == height && c in nodes[i].cpus;
      assert c in nodes[i].cpus * wanted;
      SubsetSize({c}, nodes[i].cpus * wanted);
      assert nodes[i] in nodes && nodes[i].Fits(current, free, delta);
      SubsetSize(best.cpus * wanted, best.cpus);
    }
  }

  function Pow2(n: nat): nat {
    if n == 0 then 1 else 2 * Pow2(n - 1)
  }

  function ValueOf(value: map<int, int>, c: int): int {
    if c in value then value[c] else 0
  }

  function ByValue(value: map<int, int>): (int, int) -> int {
    (c, d) => ValueOf(value, c) - ValueOf(value, d)
  }

  lemma ByValueLawful(value: map<int, int>)
    ensures Lawful(ByValue(value))
  {
  }

  /** Some n members of a set, or all if there are fewer. */
  method TakeSome(s: CpuSet, n: int) returns (r: CpuSet)
    requires n >= 0
    ensures r <= s && |r| == if |s| < n then |s| else n
  {
    r := {};
    var rest := s;
    while rest != {} && |r| < n
      invariant r <= s && rest == s - r && |r| <= n
      decreases rest
    {
      ghost var w := Pick(rest);
      var c :| c in rest;
      r, rest := r + {c}, rest - {c};
    }
    SubsetSize(r, s);
  }
}

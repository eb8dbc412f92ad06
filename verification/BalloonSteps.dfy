/**
 What the steps of the balloons policy do to its state, on values: sharing idle CPUs, moving CPUs,
 resizing, creating, listing and unlisting balloons.
 */
module BalloonSteps {
  import opened Options
  import opened CpuSets
  import opened Sorting
  import opened Sysfs
  import opened BalloonState

  /** CPUs of the topology elements, by level, that hold CPUs of a balloon. */
  function NearbyIdle(levels: map<int, seq<CpuSet>>, b: Balloon, idle: CpuSet): CpuSet {
    if b.def.shareLevel.None? || b.def.shareLevel.value !in levels then {}
    else Nearby(levels[b.def.shareLevel.value], b.cpus, idle)
  }

  function Nearby(elements: seq<CpuSet>, cpus: CpuSet, idle: CpuSet): (r: CpuSet)
    ensures r <= idle
  {
    if elements == [] then {}
    else
      var last := elements[|elements|-1];
      Nearby(elements[..|elements|-1], cpus, idle) + if last * cpus != {} then last * idle else {}
  }

  /** Shared idle CPUs of a balloon after some CPUs became idle and some are no more. */
  function Reshared(levels: map<int, seq<CpuSet>>, b: Balloon, add: CpuSet, remove: CpuSet): CpuSet {
    (b.shared - remove) + NearbyIdle(levels, b, add)
  }

  function ReshareAll(levels: map<int, seq<CpuSet>>, store: Store, top: seq<Id>, add: CpuSet, remove: CpuSet): Store {
    map i | i in store :: if i in top then store[i].(shared := Reshared(levels, store[i], add, remove)) else store[i]
  }

  /** Balloons share all idle CPUs near them. */
  ghost predicate SharesIdle(levels: map<int, seq<CpuSet>>, store: Store, top: seq<Id>, idle: CpuSet) {
    forall t :: t in top && t in store ==> NearbyIdle(levels, store[t], idle) <= store[t].shared
  }

  lemma ReshareSharesIdle(levels: map<int, seq<CpuSet>>, store: Store, top: seq<Id>, add: CpuSet, remove: CpuSet)
    ensures SharesIdle(levels, ReshareAll(levels, store, top, add, remove), top, add)
  {
  }

  /** Sharing changes nothing but shared CPUs, and these only by free CPUs. */
  lemma ReshareKeeps(levels: map<int, seq<CpuSet>>, isolated: CpuSet, store: Store, top: seq<Id>,
                     free: CpuSet, add: CpuSet, remove: CpuSet, leaves: set<Id>)
    requires leaves <= store.Keys && add <= free - isolated
    ensures var store' := ReshareAll(levels, store, top, add, remove);
            && SameRoster(store, store') && SameCpus(store, store', leaves)
            && (forall i :: i in store ==> store'[i].cpus == store[i].cpus)
            && (forall managed :: free <= managed && Within(store, managed) ==> Within(store', managed))
            && (SharesFree(store, top, free + remove, isolated) ==> SharesFree(store', top, free, isolated))
  {
  }

  function WithCpus(store: Store, id: Id, cpus: CpuSet): Store
    requires id in store
  {
    store[id := store[id].(cpus := cpus)]
  }

  /**
   A balloon was resized: idle CPUs have been shared anew, all free ones after it grew, those it gave
   up after it shrank, and nothing else has changed.
   */
  ghost predicate ResizedExactly(levels: map<int, seq<CpuSet>>, isolated: CpuSet, top: seq<Id>, before: Store, after: Store,
                                 free: CpuSet, id: Id) {
    && id in before && id in after
    && var was, cpus := before[id].cpus, after[id].cpus;
       if |cpus| > |was| then
         was <= cpus && after == ReshareAll(levels, WithCpus(before, id, cpus), top, free - isolated, cpus - was)
       else if |cpus| < |was| then
         cpus <= was && after == ReshareAll(levels, WithCpus(before, id, cpus), top, was - cpus - isolated, {})
       else after == before
  }

  lemma MoveKeeps(store: Store, top: seq<Id>, id: Id, cpus: CpuSet)
    requires Structure(store, top) && id in store
    ensures SameRoster(store, WithCpus(store, id, cpus)) && Structure(WithCpus(store, id, cpus), top)
  {
    ExtendsKeeps(store, WithCpus(store, id, cpus), top);
  }

  lemma MovedShares(store: Store, id: Id, cpus: CpuSet, top: seq<Id>, managed: CpuSet, free: CpuSet, free': CpuSet, isolated: CpuSet)
    requires id in store && cpus <= managed && free <= free'
    ensures Within(store, managed) ==> Within(WithCpus(store, id, cpus), managed)
    ensures SharesFree(store, top, free, isolated) ==> SharesFree(WithCpus(store, id, cpus), top, free', isolated)
  {
  }

  lemma ReshareUnlisted(levels: map<int, seq<CpuSet>>, store: Store, id: Id, cpus: CpuSet, top: seq<Id>, add: CpuSet, remove: CpuSet)
    requires id in store
    ensures UnlistedShare(store, ReshareAll(levels, WithCpus(store, id, cpus), top, add, remove), top)
  {
  }

  /** Balloons that are not listed share what they did. */
  ghost predicate UnlistedShare(before: Store, after: Store, top: seq<Id>) {
    forall i :: i in before && i !in top ==> i in after && after[i].shared == before[i].shared
  }

  /** No listed balloon shares any of the CPUs. */
  ghost predicate ShareNone(store: Store, top: seq<Id>, cpus: CpuSet) {
    forall t :: t in top && t in store ==> store[t].shared !! cpus
  }

  lemma UndoKeepsShared(before: Store, after: Store, top: seq<Id>, free: CpuSet, free': CpuSet, isolated: CpuSet)
    requires before.Keys == after.Keys && forall i :: i in after ==> after[i].shared == before[i].shared
    ensures SharesFree(before, top, free, isolated) ==>
              (SharesFree(after, top, free', isolated) <==> ShareNone(before, top, free - free'))
  {
    forall t | t in top && t in after && before[t].shared <= free - isolated
      ensures after[t].shared <= free' - isolated <==> before[t].shared !! free - free'
    {
      if before[t].shared !! free - free' {
        forall c | c in after[t].shared ensures c in free' - isolated {
          assert c in free - isolated;
        }
      } else {
        var c := CommonMember(before[t].shared, free - free');
      }
    }
  }

  lemma LeafWithin(managed: CpuSet, free: CpuSet, store: Store, leaves: set<Id>, id: Id)
    requires Partition(managed, free, store, leaves) && id in leaves
    ensures leaves <= store.Keys && store[id].cpus <= managed && free <= managed && store[id].cpus !! free
  {
  }

  lemma StructureIsListed(store: Store, top: seq<Id>)
    requires Structure(store, top)
    ensures Distinct(top) && InStore(store, top)
  {
  }

  lemma MovedAndShared(before: Store, moved: Store, after: Store, top: seq<Id>, id: Id,
                       managed: CpuSet, free: CpuSet, leaves: set<Id>)
    requires Structure(before, top) && SameRoster(before, moved) && SameRoster(moved, after)
    requires Partition(managed, free, moved, leaves) && SameCpus(moved, after, leaves)
    ensures SameRoster(before, after) && Structure(after, top) && Partition(managed, free, after, leaves)
  {
    ExtendsTwice(before, moved, after);
    ExtendsKeeps(before, after, top);
    PartitionBySameCpus(managed, free, moved, after, leaves);
  }

  /** Containers are pinned, each is in one balloon, and where that balloon says. */
  ghost predicate RightPins(pinCpu: bool, system: Cpus, cache: Cache, pins: map<Ctr, CpuSet>, store: Store, top: seq<Id>) {
    Separate(store, top) && (pinCpu ==> AllPinned(system, cache, pins, store, top))
  }

  /** No balloon has or shares CPUs that are not managed. */
  ghost predicate Within(store: Store, managed: CpuSet) {
    forall i :: i in store ==> store[i].cpus <= managed && store[i].shared <= managed
  }

  /** Original CPUs of the first components; all other balloons still have theirs. */
  ghost predicate Remembers(before: Store, now: Store, components: seq<Id>, original: seq<CpuSet>) {
    && |original| <= |components| && before.Keys == now.Keys
    && (forall j :: 0 <= j < |original| ==> components[j] in before && original[j] == before[components[j]].cpus)
    && (forall i :: i in now && i !in components[..|original|] ==> now[i].cpus == before[i].cpus)
  }

  /** All balloons but those in `rest` have their CPUs back, and sharing is as it was. */
  ghost predicate Restored(before: Store, start: Store, now: Store, rest: seq<Id>) {
    && SameRoster(before, now) && start.Keys == now.Keys
    && (forall i :: i in now && i !in rest ==> now[i].cpus == before[i].cpus)
    && (forall i :: i in now ==> now[i].shared == start[i].shared)
  }

  lemma RestoredNext(before: Store, start: Store, now: Store, rest: seq<Id>)
    requires rest != [] && rest[0] in before && Restored(before, start, now, rest)
    ensures Restored(before, start, WithCpus(now, rest[0], before[rest[0]].cpus), rest[1..])
  {
    var after := WithCpus(now, rest[0], before[rest[0]].cpus);
    forall i | i in after && i !in rest[1..] ensures after[i].cpus == before[i].cpus {
      assert i == rest[0] || i !in rest;
    }
    ExtendsTwice(before, now, after);
  }

  lemma RemembersMore(before: Store, middle: Store, after: Store, components: seq<Id>, original: seq<CpuSet>)
    requires 0 < |original| <= |components|
    requires Remembers(before, middle, components, original[..|original|-1]) && middle.Keys == after.Keys
    requires var id := components[|original|-1];
             && id in middle && id !in components[..|original|-1] && original[|original|-1] == middle[id].cpus
             && forall i :: i in after && i != id ==> after[i].cpus == middle[i].cpus
    ensures Remembers(before, after, components, original)
  {
    var k := |original| - 1;
    assert components[..k+1] == components[..k] + [components[k]];
    assert forall j :: 0 <= j < k ==> original[j] == original[..k][j];
  }

  lemma EqualSizedStays(before: Store, after: Store, ids: seq<Id>, milliCpus: nat)
    requires EqualSized(before, ids, milliCpus) && Grown(before, after)
    ensures EqualSized(after, ids, milliCpus)
  {
    forall i | i in ids ensures i in after && |after[i].cpus| == CpuCount(after[i].def, milliCpus) {
      assert SameBalloon(before[i], after[i]);
    }
  }

  /** A balloon with its minimum of CPUs is sized for no request at all. */
  lemma OneMoreEqualSized(store: Store, ids: seq<Id>, id: Id)
    requires EqualSized(store, ids, 0) && id in store && store[id].Plain()
    requires FitsRequest(store, id, 1000 * store[id].def.minCpus)
    ensures EqualSized(store, ids + [id], 0)
  {
    forall i | i in ids + [id] ensures i in store && |store[i].cpus| == CpuCount(store[i].def, 0) {
      assert i in ids || i == id;
    }
  }

  /** The next component to resize has its original size. */
  lemma NotYetResized(start: Store, now: Store, components: seq<Id>, original: seq<CpuSet>, was: nat, milliCpus: nat)
    requires |original| < |components| && Distinct(components) && SameRoster(start, now)
    requires Remembers(start, now, components, original) && EqualSized(start, components, was)
    ensures var b := now[components[|original|]];
            && |b.cpus| == CpuCount(b.def, was)
            && (milliCpus >= was ==> |b.cpus| <= CpuCount(b.def, milliCpus))
            && (milliCpus < was ==> CpuCount(b.def, milliCpus) <= |b.cpus|)
  {
    var id := components[|original|];
    assert id in components && id !in components[..|original|];
    assert SameBalloon(start[id], now[id]);
    if milliCpus >= was {
      CpuCountGrows(now[id].def, was, milliCpus);
    } else {
      CpuCountGrows(now[id].def, milliCpus, was);
    }
  }

  lemma RosterKeepsDef(before: Store, after: Store, id: Id)
    requires SameRoster(before, after) && id in before
    ensures id in after && after[id].def == before[id].def
  {
    assert SameBalloon(before[id], after[id]);
  }

  /** CPUs that balloons have, and that they are to have for a request each. */
  ghost function SumCpus(store: Store, ids: seq<Id>): nat {
    if ids == [] then 0
    else SumCpus(store, ids[..|ids|-1]) + if ids[|ids|-1] in store then |store[ids[|ids|-1]].cpus| else 0
  }

  ghost function SumTargets(store: Store, ids: seq<Id>, milliCpus: nat): nat {
    if ids == [] then 0
    else
      SumTargets(store, ids[..|ids|-1], milliCpus) +
      if ids[|ids|-1] in store then CpuCount(store[ids[|ids|-1]].def, milliCpus) else 0
  }

  lemma SumOneMore(store: Store, ids: seq<Id>, k: nat, milliCpus: nat)
    requires k < |ids| && ids[k] in store
    ensures SumCpus(store, ids[..k+1]) == SumCpus(store, ids[..k]) + |store[ids[k]].cpus|
    ensures SumTargets(store, ids[..k+1], milliCpus) == SumTargets(store, ids[..k], milliCpus) + CpuCount(store[ids[k]].def, milliCpus)
  {
    assert ids[..k+1][..k] == ids[..k];
  }

  /** Balloons sized for the same request need no fewer CPUs for a larger one, however many of them are considered. */
  lemma {:induction false} SumsGrow(store: Store, ids: seq<Id>, k: nat, was: nat, milliCpus: nat)
    requires k <= |ids| && EqualSized(store, ids, was) && was <= milliCpus
    ensures SumTargets(store, ids, milliCpus) - SumCpus(store, ids) >=
            SumTargets(store, ids[..k], milliCpus) - SumCpus(store, ids[..k])
  {
    if k == |ids| {
      assert ids[..k] == ids;
    } else {
      var init, last := ids[..|ids|-1], ids[|ids|-1];
      assert last in ids && forall i :: i in init ==> i in ids;
      SumsGrow(store, init, k, was, milliCpus);
      assert init[..k] == ids[..k];
      CpuCountGrows(store[last].def, was, milliCpus);
    }
  }

  /** Balloons sized for the same request need no more CPUs for a smaller one. */
  lemma {:induction false} SumsShrink(store: Store, ids: seq<Id>, was: nat, milliCpus: nat)
    requires EqualSized(store, ids, was) && milliCpus <= was
    ensures SumTargets(store, ids, milliCpus) <= SumCpus(store, ids)
  {
    if ids != [] {
      var init, last := ids[..|ids|-1], ids[|ids|-1];
      assert last in ids && forall i :: i in init ==> i in ids;
      SumsShrink(store, init, was, milliCpus);
      CpuCountGrows(store[last].def, milliCpus, was);
    }
  }

  /** Any balloon can be deflated, and a plain one can be resized to what its containers call for, which it has. */
  lemma CanShrink(cache: Cache, store: Store, id: Id, free: nat)
    requires id in store && (store[id].Plain() ==> WithinLimits(store[id])) && EvenlySized(store, store[id].components)
    ensures CanResize(store, id, 0, free)
    ensures store[id].Plain() && store[id].containers != [] && Serves(cache, store, store[id]) ==>
              CanResize(store, id, Demand(cache, store[id].containers), free)
  {
    if !store[id].Plain() {
      var was: nat :| EqualSized(store, store[id].components, was);
      SumsShrink(store, store[id].components, was, 0 / |store[id].components|);
    }
  }

  lemma {:induction false} SumsStay(before: Store, after: Store, ids: seq<Id>, milliCpus: nat)
    requires Grown(before, after) && forall i :: i in ids ==> i in before
    ensures SumCpus(after, ids) == SumCpus(before, ids) && SumTargets(after, ids, milliCpus) == SumTargets(before, ids, milliCpus)
  {
    if ids != [] {
      var last := ids[|ids|-1];
      assert last in ids && SameBalloon(before[last], after[last]);
      SumsStay(before, after, ids[..|ids|-1], milliCpus);
    }
  }

  /** There are enough CPUs for a resize: for a plain balloon, or for the equal shares of the components of another. */
  ghost predicate CanResize(store: Store, id: Id, milliCpus: nat, free: nat) {
    && id in store
    && var b := store[id];
       if b.Plain() then CpuCount(b.def, milliCpus) <= |b.cpus| + free
       else SumTargets(store, b.components, milliCpus / |b.components|) <= SumCpus(store, b.components) + free
  }

  /** One more component has been resized, or not. */
  lemma OneMoreResized(start: Store, before: Store, after: Store, components: seq<Id>, original: seq<CpuSet>, top: seq<Id>)
    requires |original| < |components| && Distinct(components)
    requires SameRoster(start, before) && SameRoster(before, after) && Remembers(start, before, components, original)
    requires UnlistedShare(start, before, top) && UnlistedShare(before, after, top)
    requires var id := components[|original|];
             id in before && forall i :: i in after && i != id ==> after[i].cpus == before[i].cpus
    ensures SameRoster(start, after) && UnlistedShare(start, after, top)
    ensures Remembers(start, after, components, original + [before[components[|original|]].cpus])
  {
    var id := components[|original|];
    ExtendsTwice(start, before, after);
    assert id !in components[..|original|];
    assert (original + [before[id].cpus])[..|original|] == original;
    RemembersMore(start, before, after, components, original + [before[id].cpus]);
  }

  lemma NothingResized(store: Store, components: seq<Id>, milliCpus: nat, top: seq<Id>)
    ensures SameRoster(store, store) && Remembers(store, store, components, []) && UnlistedShare(store, store, top)
    ensures ResizedAll(store, components[..0], {}, milliCpus)
    ensures SumTargets(store, components[..0], milliCpus) == SumCpus(store, components[..0]) == 0
  {
  }

  lemma ComponentIsThere(store: Store, id: Id)
    requires IsComponent(store, id)
    ensures id in store && store[id].containers == []
  {
  }

  lemma RosterKeeps(before: Store, after: Store, id: Id)
    requires SameRoster(before, after) && id in before
    ensures id in after
  {
  }

  lemma StaysComponent(before: Store, after: Store, id: Id)
    requires SameRoster(before, after) && IsComponent(before, id)
    ensures IsComponent(after, id)
  {
    assert SameBalloon(before[id], after[id]);
  }

  lemma OthersRemembered(before: Store, now: Store, components: seq<Id>, original: seq<CpuSet>)
    requires Remembers(before, now, components, original)
    ensures OthersSame(before, now, Elements(components))
  {
    forall i | i in components[..|original|] ensures i in components {
    }
  }

  /** The components, whose CPUs these are, have been resized. */
  ghost predicate ResizedAll(store: Store, components: seq<Id>, cpus: CpuSet, milliCpus: nat) {
    && IsUnion(store, Elements(components), cpus)
    && (forall i :: i in components ==> i in store && |store[i].cpus| == CpuCount(store[i].def, milliCpus))
  }

  lemma ComponentResized(before: Store, after: Store, done: seq<Id>, id: Id, cpus: CpuSet, milliCpus: nat)
    requires SameRoster(before, after) && id in after && id !in done && ResizedAll(before, done, cpus, milliCpus)
    requires forall i :: i in after && i != id ==> after[i].cpus == before[i].cpus
    requires |after[id].cpus| == CpuCount(after[id].def, milliCpus)
    ensures ResizedAll(after, done + [id], cpus + after[id].cpus, milliCpus)
  {
    UnionStep(before, after, done, id, cpus);
    forall i | i in done ensures |after[i].cpus| == CpuCount(after[i].def, milliCpus) {
      assert SameBalloon(before[i], after[i]);
    }
  }

  /** Balloons other than the given ones have the CPUs they had. */
  ghost predicate OthersSame(before: Store, after: Store, ids: set<Id>) {
    before.Keys <= after.Keys && forall i :: i in before && i !in ids ==> after[i].cpus == before[i].cpus
  }

  /** A balloon has been resized for a request: exactly if plain, component by component if composite. */
  ghost predicate FitsRequest(store: Store, id: Id, milliCpus: nat) {
    && id in store
    && var b := store[id];
       if b.Plain() then |b.cpus| == CpuCount(b.def, milliCpus)
       else ResizedAll(store, b.components, b.cpus, milliCpus / |b.components|)
  }

  lemma FitsMeansWithinLimits(store: Store, id: Id, milliCpus: nat)
    requires FitsRequest(store, id, milliCpus)
    ensures LimitsHold(store, LeavesOf(store, id)) && Composed(store, id) && EvenlySized(store, store[id].components)
  {
    assert EqualSized(store, store[id].components, if store[id].Plain() then 0 else milliCpus / |store[id].components|);
    forall l | l in LeavesOf(store, id) && l in store ensures WithinLimits(store[l]) {
      CpuCountWithinLimits(store[l].def, if store[id].Plain() then milliCpus else milliCpus / |store[id].components|);
    }
  }

  /** Unless a component type limits CPUs, a composite balloon gets what was asked for, but for rounding of the shares. */
  lemma CompositeServesRequest(store: Store, id: Id, milliCpus: nat, managed: CpuSet, free: CpuSet, leaves: set<Id>)
    requires FitsRequest(store, id, milliCpus) && !store[id].Plain() && ComponentsArePlain(store, store[id])
    requires Partition(managed, free, store, leaves) && Elements(store[id].components) <= leaves
    requires forall i :: i in store[id].components ==> store[i].def.maxCpus == 0
    ensures 1000 * |store[id].cpus| >= milliCpus - (|store[id].components| - 1)
  {
    var components := store[id].components;
    var each := milliCpus / |components|;
    forall i | i in components ensures 1000 * |store[i].cpus| >= each {
      CpuCountWithinLimits(store[i].def, each);
    }
    forall i, j | i in components && j in components && i != j ensures store[i].cpus !! store[j].cpus {
      assert i in Elements(components) && j in Elements(components);
    }
    UnionSize(store, components, store[id].cpus, each);
    EqualShares(milliCpus, |components|);
  }

  lemma EqualShares(milliCpus: nat, n: nat)
    requires n > 0
    ensures n * (milliCpus / n) >= milliCpus - (n - 1)
  {
    assert milliCpus == n * (milliCpus / n) + milliCpus % n;
  }

  lemma SomethingToShare(milliCpus: nat, n: nat)
    requires n > 0
    ensures milliCpus / n > 0 <==> milliCpus >= n
  {
  }

  /** A composite balloon has CPUs after a resize if and only if its components get any. */
  lemma CompositeHasCpusIff(store: Store, id: Id, milliCpus: nat)
    requires FitsRequest(store, id, milliCpus) && !store[id].Plain()
    ensures store[id].cpus != {} <==> GetsCpus(store, store[id].components, milliCpus)
  {
    var b := store[id];
    SomethingToShare(milliCpus, |b.components|);
    if b.cpus != {} {
      var c := Pick(b.cpus);
      var i :| i in Elements(b.components) && c in store[i].cpus;
      assert i in b.components && |store[i].cpus| > 0;
    }
    if GetsCpus(store, b.components, milliCpus) {
      assert b.components[0] in b.components;
      var i :| i in b.components && (milliCpus >= |b.components| || store[i].def.minCpus > 0);
      assert i in Elements(b.components) && |store[i].cpus| > 0;
      var c := Pick(store[i].cpus);
      assert c in b.cpus;
    }
  }

  /** A composite balloon that has been resized for a request provides it. */
  lemma FitProvides(store: Store, id: Id, milliCpus: nat, managed: CpuSet, free: CpuSet, leaves: set<Id>)
    requires FitsRequest(store, id, milliCpus) && !store[id].Plain() && ComponentsArePlain(store, store[id])
    requires Partition(managed, free, store, leaves) && Elements(store[id].components) <= leaves
    ensures Provides(store, store[id], milliCpus)
  {
    CompositeHasCpusIff(store, id, milliCpus);
    if Unlimited(store, store[id].components) {
      forall i | i in store[id].components ensures store[i].def.maxCpus == 0 {
        assert i in Elements(store[id].components);
      }
      CompositeServesRequest(store, id, milliCpus, managed, free, leaves);
    }
  }

  /**
   A composite balloon of two types without minimum, resized for a container without request: it has
   no CPUs, so the pin of its containers is empty and they run anywhere, on CPUs of other balloons as well.
   */
  lemma BestEffortRunsAnywhere(def: Def, part: Def, system: Cpus, info: Info, all: CpuSet)
    requires part.minCpus == 0 && part.maxCpus == 0
    ensures var b := Balloon(def, 0, {}, {}, ["c"], [Id(1), Id(2)]);
            var store := map[Id(0) := b, Id(1) := NewBalloon(part, 0, []), Id(2) := NewBalloon(part, 1, [])];
            var cache := map["c" := info.(request := 0)];
            && FitsRequest(store, Id(0), Demand(cache, b.containers)) && Serves(cache, store, b)
            && RunsOn(AllowedCpus(system, b, info), all) == all
  {
    var b := Balloon(def, 0, {}, {}, ["c"], [Id(1), Id(2)]);
    var cache := map["c" := info.(request := 0)];
    AllowedUnlessNone(system, b, info);
    assert b.containers[..0] == [] && Requested(cache, b.containers) == 0;
    assert Demand(cache, b.containers) / 2 == 0 && CpuCount(part, 0) == 0;
  }

  ghost predicate IsTaken(store: Store, same: seq<Id>, n: nat) {
    exists t :: t in same && t in store && store[t].instance == n
  }

  /** Balloons that have all the numbers below their count have no others. */
  lemma AllNumbersTaken(store: Store, same: seq<Id>)
    requires InStore(store, same) && forall m :: 0 <= m < |same| ==> IsTaken(store, same, m)
    ensures !IsTaken(store, same, |same|)
  {
    if IsTaken(store, same, |same|) {
      var numbers, upTo := Numbers(store, same), UpTo(|same| + 1);
      forall m | m in upTo ensures m in numbers {
        assert IsTaken(store, same, m);
        var u :| u in same && u in store && store[u].instance == m;
      }
      NumbersAreFew(store, same);
      SubsetSize(upTo, numbers);
      assert false;
    }
  }

  ghost function UpTo(n: nat): (r: set<int>)
    ensures |r| == n && forall m :: m in r <==> 0 <= m < n
  {
    if n == 0 then {} else UpTo(n - 1) + {n - 1}
  }

  ghost function Numbers(store: Store, ids: seq<Id>): set<int>
    requires InStore(store, ids)
  {
    set t | t in ids :: store[t].instance
  }

  lemma {:induction false} NumbersAreFew(store: Store, ids: seq<Id>)
    requires InStore(store, ids)
    ensures |Numbers(store, ids)| <= |ids|
  {
    if ids != [] {
      var init, last := ids[..|ids|-1], ids[|ids|-1];
      assert ids == init + [last] && last in ids;
      assert forall t :: t in init ==> t in ids;
      NumbersAreFew(store, init);
      var n: int := store[last].instance;
      forall m ensures m in Numbers(store, ids) <==> m in Numbers(store, init) + {n} {
      }
      assert Numbers(store, ids) == Numbers(store, init) + {n};
    }
  }

  /** Balloons have been added; those that were there have what they had. */
  ghost predicate Grown(before: Store, after: Store) {
    Extends(before, after) && OthersSame(before, after, {})
  }

  lemma GrownItself(store: Store)
    ensures Grown(store, store)
  {
  }

  lemma GrownTwice(a: Store, b: Store, c: Store)
    requires Grown(a, b) && Grown(b, c)
    ensures Grown(a, c)
  {
    ExtendsTwice(a, b, c);
  }

  /** A balloon of the type may be listed under the number. */
  ghost predicate CanNumber(store: Store, top: seq<Id>, def: Def, n: nat) {
    && (forall t :: t in top && t in store && store[t].def == def ==> store[t].instance != n)
    && (def.maxBalloons > 0 ==> |OfDef(store, top, def)| < def.maxBalloons)
  }

  lemma CanStillNumber(store: Store, store': Store, top: seq<Id>, def: Def, n: nat)
    requires CanNumber(store, top, def, n) && Extends(store, store') && InStore(store, top)
    ensures CanNumber(store', top, def, n)
  {
    ExtendsCounts(store, store', top, {});
    forall t | t in top && store'[t].def == def ensures store'[t].instance != n {
      assert SameBalloon(store[t], store'[t]);
    }
  }

  function NewBalloon(def: Def, instance: nat, components: seq<Id>): Balloon {
    Balloon(def, instance, {}, {}, [], components)
  }

  lemma AddKeeps(store: Store, top: seq<Id>, id: Id, b: Balloon)
    requires Structure(store, top) && id !in store
    ensures Grown(store, store[id := b]) && Structure(store[id := b], top)
  {
    ExtendsKeeps(store, store[id := b], top);
  }

  /** What is listed is pinned and shares as before when an unlisted balloon is added. */
  lemma AddKeepsPins(store: Store, top: seq<Id>, id: Id, b: Balloon, free: CpuSet, isolated: CpuSet,
                     pinCpu: bool, system: Cpus, cache: Cache, pins: map<Ctr, CpuSet>)
    requires InStore(store, top) && id !in store
    ensures SharesFree(store, top, free, isolated) ==> SharesFree(store[id := b], top, free, isolated)
    ensures RightPins(pinCpu, system, cache, pins, store, top) ==> RightPins(pinCpu, system, cache, pins, store[id := b], top)
  {
    if pinCpu && RightPins(pinCpu, system, cache, pins, store, top) {
      forall t | t in top ensures Pinned(system, cache, pins, store[id := b][t]) {
        assert store[id := b][t] == store[t] && Pinned(system, cache, pins, store[t]);
      }
    }
  }

  lemma DropEmpty(managed: CpuSet, free: CpuSet, store: Store, leaves: set<Id>, id: Id)
    requires Partition(managed, free, store, leaves + {id}) && store[id].cpus == {} && id !in leaves
    ensures Partition(managed, free, store, leaves)
  {
    PartitionDrop(managed, free, store, leaves + {id}, {id}, {});
    assert leaves + {id} - {id} == leaves && free + {} == free;
  }

  function Created(r: Option<Id>): set<Id> {
    if r.Some? then {r.value} else {}
  }

  /** The first type of the name. */
  function DefByName(defs: seq<Def>, name: string): (r: Option<Def>)
    ensures r.Some? ==> r.value in defs && r.value.name == name
    ensures r.None? ==> forall d :: d in defs ==> d.name != name
  {
    if defs == [] then None
    else if defs[0].name == name then Some(defs[0])
    else DefByName(defs[1..], name)
  }

  /** Components of the type, where they are known, are not composite themselves. */
  ghost predicate FlatType(defs: seq<Def>, def: Def) {
    forall name :: name in def.components && DefByName(defs, name).Some? ==> DefByName(defs, name).value.components == []
  }

  /** Balloons are of the named types, one after the other; there may be more names. */
  ghost predicate OfTypes(defs: seq<Def>, store: Store, ids: seq<Id>, names: seq<string>) {
    |ids| <= |names| && forall k :: 0 <= k < |ids| ==> ids[k] in store && DefByName(defs, names[k]) == Some(store[ids[k]].def)
  }

  lemma StillOfTypes(defs: seq<Def>, before: Store, after: Store, ids: seq<Id>, names: seq<string>)
    requires OfTypes(defs, before, ids, names) && Extends(before, after)
    ensures OfTypes(defs, after, ids, names)
  {
    forall k | 0 <= k < |ids| ensures ids[k] in after && DefByName(defs, names[k]) == Some(after[ids[k]].def) {
      assert SameBalloon(before[ids[k]], after[ids[k]]);
    }
  }

  lemma OneMoreOfType(defs: seq<Def>, before: Store, after: Store, ids: seq<Id>, names: seq<string>, id: Id)
    requires OfTypes(defs, before, ids, names) && Extends(before, after) && |ids| < |names|
    requires id in after && DefByName(defs, names[|ids|]) == Some(after[id].def)
    ensures OfTypes(defs, after, ids + [id], names)
  {
    StillOfTypes(defs, before, after, ids, names);
  }

  /** The first of the names with the fewest balloons. */
  ghost predicate IsLeastUsed(store: Store, top: seq<Id>, names: seq<string>, k: nat) {
    && k < |names|
    && (forall j :: 0 <= j < |names| ==> Instances(store, top, names[k]) <= Instances(store, top, names[j]))
    && (forall j :: 0 <= j < k ==> Instances(store, top, names[k]) < Instances(store, top, names[j]))
  }

  /** The types a new balloon of the type gets components of: all of them, or the least used one if balanced. */
  ghost predicate AreComponentNames(store: Store, top: seq<Id>, def: Def, names: seq<string>) {
    if def.balanced then exists k: nat :: IsLeastUsed(store, top, def.components, k) && names == [def.components[k]]
    else names == def.components
  }

  /** Components of a new balloon are of the types to create, one of each. */
  ghost predicate MadeOf(defs: seq<Def>, before: Store, top: seq<Id>, store: Store, b: Balloon) {
    exists names :: AreComponentNames(before, top, b.def, names) && |b.components| == |names| &&
                    OfTypes(defs, store, b.components, names)
  }

  /** A balloon has components of the types its type says: all of them in order, or one of them if balanced. */
  ghost predicate Typed(store: Store, b: Balloon) {
    && (forall i :: i in b.components ==> i in store)
    && if b.def.components == [] then b.Plain()
       else if b.def.balanced then |b.components| == 1 && store[b.components[0]].def.name in b.def.components
       else |b.components| == |b.def.components| &&
            forall k :: 0 <= k < |b.components| ==> store[b.components[k]].def.name == b.def.components[k]
  }

  ghost predicate AllTyped(store: Store, top: seq<Id>) {
    forall t :: t in top && t in store ==> Typed(store, store[t])
  }

  lemma StillTyped(before: Store, after: Store, a: Balloon, b: Balloon)
    requires Typed(before, a) && a.def == b.def && a.components == b.components
    requires forall i :: i in a.components && i in before ==> i in after && after[i].def == before[i].def
    ensures Typed(after, b)
  {
    assert forall k :: 0 <= k < |a.components| ==> a.components[k] in a.components;
  }

  lemma ExtendsTyped(before: Store, after: Store, top: seq<Id>)
    requires Extends(before, after) && InStore(before, top) && AllTyped(before, top)
    ensures AllTyped(after, top)
  {
    hide Typed;
    forall t | t in top && t in after ensures Typed(after, after[t]) {
      assert SameBalloon(before[t], after[t]);
      forall i | i in before[t].components && i in before ensures i in after && after[i].def == before[i].def {
        assert SameBalloon(before[i], after[i]);
      }
      StillTyped(before, after, before[t], after[t]);
    }
  }

  lemma NamedIsTyped(defs: seq<Def>, before: Store, store: Store, top: seq<Id>, b: Balloon, names: seq<string>)
    requires AreComponentNames(before, top, b.def, names) && OfTypes(defs, store, b.components, names)
    requires |b.components| == |names| && b.def.components != []
    ensures Typed(store, b)
  {
    forall i | i in b.components ensures i in store {
      var k :| 0 <= k < |b.components| && b.components[k] == i;
    }
    if !b.def.balanced {
      forall k | 0 <= k < |b.components| ensures store[b.components[k]].def.name == b.def.components[k] {
        assert DefByName(defs, names[k]).value.name == names[k];
      }
    }
  }

  /** Balloons of a type name among the given ones. */
  function CountNamed(store: Store, ids: seq<Id>, name: string): nat {
    if ids == [] then 0
    else CountNamed(store, ids[1..], name) + if ids[0] in store && store[ids[0]].def.name == name then 1 else 0
  }

  /** Balloons of a type name, listed or as components. */
  function Instances(store: Store, top: seq<Id>, name: string): nat {
    if top == [] then 0
    else
      var components := if top[0] in store then store[top[0]].components else [];
      CountNamed(store, [top[0]] + components, name) + Instances(store, top[1..], name)
  }

  /** Unlisting a balloon keeps pins and shared CPUs of the others right. */
  lemma UnlistKeepsPins(store: Store, top: seq<Id>, id: Id, free: CpuSet, more: CpuSet, isolated: CpuSet,
                        pinCpu: bool, system: Cpus, cache: Cache, pins: map<Ctr, CpuSet>)
    ensures SharesFree(store, top, free, isolated) ==> SharesFree(store, Without(top, id), free + more, isolated)
    ensures RightPins(pinCpu, system, cache, pins, store, top) ==>
              RightPins(pinCpu, system, cache, pins, store, Without(top, id))
  {
    WithoutMembers(top, id);
  }

  /** Plain balloons that were not there before. */
  ghost predicate NewComponents(before: Store, after: Store, components: seq<Id>) {
    && Distinct(components)
    && (forall i :: i in components ==> IsComponent(after, i) && i !in before)
  }

  lemma OneMoreComponent(before: Store, middle: Store, after: Store, components: seq<Id>, id: Id)
    requires NewComponents(before, middle, components) && Extends(before, middle) && Extends(middle, after)
    requires id !in middle && IsComponent(after, id)
    ensures NewComponents(before, after, components + [id])
  {
    forall i | i in components ensures IsComponent(after, i) {
      assert SameBalloon(middle[i], after[i]);
    }
  }

  /** A new balloon with its minimum of CPUs, not listed yet. */
  ghost predicate IsNew(before: Store, after: Store, top: seq<Id>, def: Def, id: Id) {
    && id !in before && id in after && ComponentsArePlain(after, after[id])
    && after[id].def == def && after[id].containers == [] && (after[id].Plain() <==> def.components == [])
    && LeavesOf(after, id) !! before.Keys && Typed(after, after[id])
    && FitsRequest(after, id, 1000 * def.minCpus) && CanNumber(after, top, def, after[id].instance)
  }

  // ---- what holds of the listed balloons between requests

  /**
   Leaf balloons respect CPU limits, composite balloons have the CPUs of their components, numbers
   tell balloons apart, and types have neither too many nor too few balloons.
   */
  ghost predicate Sound(store: Store, top: seq<Id>, applied: set<Def>) {
    && Structure(store, top) && LimitsHold(store, Leaves(store, top)) && AllComposed(store, top) && AllEven(store, top)
    && AllTyped(store, top)
    && Numbered(store, top) && Enough(store, top, applied)
  }

  ghost predicate AllServed(cache: Cache, store: Store, top: seq<Id>) {
    forall t :: t in top && t in store ==> Serves(cache, store, store[t])
  }

  lemma NothingIsSound(cpus: CpuSet)
    ensures Sound(map[], [], {}) && Leaves(map[], []) == {} && Partition(cpus, cpus, map[], {})
  {
    forall d: Def ensures OfDef(map[], [], d) == {} {
    }
  }

  lemma EvenStays(before: Store, after: Store, ids: seq<Id>)
    requires EvenlySized(before, ids)
    requires forall i :: i in ids && i in before ==> i in after && after[i].cpus == before[i].cpus && after[i].def == before[i].def
    ensures EvenlySized(after, ids)
  {
    var m: nat :| EqualSized(before, ids, m);
    assert EqualSized(after, ids, m);
  }

  /** Resizing one balloon leaves components of the others alone. */
  lemma EvenApart(before: Store, after: Store, top: seq<Id>, t: Id, id: Id)
    requires Structure(before, top) && SameRoster(before, after) && id in top && t in top && t != id
    requires OthersSame(before, after, {id} + LeavesOf(before, id)) && EvenlySized(before, before[t].components)
    ensures EvenlySized(after, after[t].components)
  {
    assert SameBalloon(before[t], after[t]);
    forall i | i in before[t].components && i in before
      ensures after[i].cpus == before[i].cpus && after[i].def == before[i].def
    {
      assert i in LeavesOf(before, t) && i in Leaves(before, top);
      LeafIsPlain(before, top, i);
      NotAComponent(before, top, t, id);
      assert SameBalloon(before[i], after[i]);
    }
    EvenStays(before, after, before[t].components);
  }

  lemma GrownKeepsSound(before: Store, after: Store, top: seq<Id>, applied: set<Def>)
    requires Sound(before, top, applied) && Grown(before, after)
    ensures Sound(after, top, applied) && Leaves(after, top) == Leaves(before, top)
  {
    hide Typed;
    ExtendsKeeps(before, after, top);
    ExtendsCounts(before, after, top, applied);
    ExtendsTyped(before, after, top);
    forall l | l in Leaves(after, top) && l in after ensures WithinLimits(after[l]) {
      LeafIsPlain(before, top, l);
      assert SameBalloon(before[l], after[l]);
    }
    forall t | t in top ensures Composed(after, t) {
      assert Composed(before, t) && SameBalloon(before[t], after[t]);
      if !before[t].Plain() {
        UnionStays(before, after, Elements(before[t].components), before[t].cpus);
      }
    }
    forall t | t in top && t in after ensures EvenlySized(after, after[t].components) {
      assert SameBalloon(before[t], after[t]) && EvenlySized(before, before[t].components);
      forall i | i in before[t].components && i in before ensures after[i].cpus == before[i].cpus && after[i].def == before[i].def {
        assert SameBalloon(before[i], after[i]);
      }
      EvenStays(before, after, before[t].components);
    }
  }

  /** Components of a listed balloon are there, and keep their types. */
  lemma ComponentsStay(before: Store, after: Store, top: seq<Id>, t: Id)
    requires Structure(before, top) && t in top && Extends(before, after)
    ensures forall i :: i in before[t].components ==> i in before && i in after && before[i].def == after[i].def
  {
    forall i | i in before[t].components ensures i in before && before[i].def == after[i].def {
      var k :| 0 <= k < |before[t].components| && before[t].components[k] == i;
      assert ComponentsArePlain(before, before[t]) && IsComponent(before, before[t].components[k]);
      assert SameBalloon(before[i], after[i]);
    }
  }

  lemma GrownKeepsServed(before: Store, after: Store, top: seq<Id>, cache: Cache)
    requires Structure(before, top) && Grown(before, after)
    ensures AllServed(cache, before, top) ==> AllServed(cache, after, top)
  {
    hide Serves, Structure, Extends;
    StructureIsListed(before, top);
    if AllServed(cache, before, top) {
      forall t | t in top && t in after ensures Serves(cache, after, after[t]) {
        StillServed(before, after, top, t, cache);
      }
    }
  }

  lemma StillServed(before: Store, after: Store, top: seq<Id>, t: Id, cache: Cache)
    requires Structure(before, top) && t in top && Extends(before, after) && after[t].cpus == before[t].cpus
    requires Serves(cache, before, before[t])
    ensures Serves(cache, after, after[t])
  {
    hide Serves, Structure;
    StructureIsListed(before, top);
    assert SameBalloon(before[t], after[t]);
    ComponentsStay(before, after, top, t);
    ServesStill(cache, before, after, before[t], after[t]);
  }

  lemma ResizeKeepsSound(before: Store, after: Store, top: seq<Id>, applied: set<Def>, id: Id, milliCpus: nat)
    requires Sound(before, top, applied) && id in top && SameRoster(before, after)
    requires OthersSame(before, after, {id} + LeavesOf(before, id)) && FitsRequest(after, id, milliCpus)
    ensures Sound(after, top, applied) && Leaves(after, top) == Leaves(before, top)
  {
    hide Typed;
    FitsMeansWithinLimits(after, id, milliCpus);
    ExtendsTyped(before, after, top);
    ExtendsKeeps(before, after, top);
    ExtendsCounts(before, after, top, applied);
    ResizeKeeps(before, after, top, id);
    forall t | t in top && t in after ensures EvenlySized(after, after[t].components) {
      if t != id {
        EvenApart(before, after, top, t, id);
      }
    }
  }

  lemma ResizeKeepsServed(before: Store, after: Store, top: seq<Id>, id: Id, cache: Cache)
    requires Structure(before, top) && id in top && SameRoster(before, after)
    requires OthersSame(before, after, {id} + LeavesOf(before, id)) && ServedBut(cache, before, top, id)
    ensures ServedBut(cache, after, top, id)
  {
    hide Serves;
    forall t | t in top && t != id ensures Serves(cache, after, after[t]) {
      if t in LeavesOf(before, id) {
        assert t in Leaves(before, top);
        LeafIsPlain(before, top, t);
        assert t in LeavesOf(before, t);
      }
      StillServed(before, after, top, t, cache);
    }
  }

  lemma ListKeepsSound(before: Store, store: Store, top: seq<Id>, applied: set<Def>, def: Def, id: Id)
    requires Sound(before, top, applied) && Grown(before, store) && IsNew(before, store, top, def, id)
    ensures Sound(store, top + [id], applied) && Leaves(store, top + [id]) == Leaves(before, top) + LeavesOf(store, id)
    ensures |OfDef(store, top + [id], def)| == |OfDef(store, top, def)| + 1
  {
    hide Typed;
    GrownKeepsSound(before, store, top, applied);
    forall l | l in Leaves(store, top) ensures l in before {
      LeafIsPlain(before, top, l);
    }
    ListNew(store, top, id);
    ListNewCounts(store, top, id, applied);
    FitsMeansWithinLimits(store, id, 1000 * def.minCpus);
    forall t | t in top + [id] ensures Composed(store, t) && Typed(store, store[t]) {
      assert t in top || t == id;
    }
  }

  lemma UnlistKeepsSound(store: Store, top: seq<Id>, applied: set<Def>, id: Id)
    requires Sound(store, top, applied) && id in top
    requires |OfDef(store, top, store[id].def)| > store[id].def.minBalloons
    ensures Sound(store, Without(top, id), applied)
    ensures Leaves(store, Without(top, id)) == Leaves(store, top) - LeavesOf(store, id)
  {
    hide Typed;
    WithoutMembers(top, id);
    Unlist(store, top, id);
    UnlistCounts(store, top, id, applied);
  }

  // ---- containers

  function WithContainers(store: Store, id: Id, containers: seq<Ctr>): Store
    requires id in store
  {
    store[id := store[id].(containers := containers)]
  }

  lemma NotAComponent(store: Store, top: seq<Id>, t: Id, id: Id)
    requires Structure(store, top) && id in top && t in top
    ensures id !in store[t].components
  {
    if id in store[t].components {
      LeafIsPlain(store, top, id);
      assert false;
    }
  }

  lemma ContainersKeepStructure(store: Store, top: seq<Id>, id: Id, containers: seq<Ctr>)
    requires Structure(store, top) && id in top
    ensures var store' := WithContainers(store, id, containers);
            Structure(store', top) && Leaves(store', top) == Leaves(store, top)
    ensures forall t :: t in top ==> LeavesOf(WithContainers(store, id, containers), t) == LeavesOf(store, t)
  {
    var store' := WithContainers(store, id, containers);
    forall t | t in top ensures ComponentsArePlain(store', store'[t]) && LeavesOf(store', t) == LeavesOf(store, t) {
      NotAComponent(store, top, t, id);
      assert ComponentsArePlain(store, store[t]);
      forall i | 0 <= i < |store[t].components| ensures IsComponent(store', store[t].components[i]) {
        assert IsComponent(store, store[t].components[i]);
      }
    }
  }

  lemma ContainersKeepSound(store: Store, top: seq<Id>, applied: set<Def>, id: Id, containers: seq<Ctr>)
    requires Sound(store, top, applied) && id in top
    ensures Sound(WithContainers(store, id, containers), top, applied)
    ensures Leaves(WithContainers(store, id, containers), top) == Leaves(store, top)
  {
    hide Typed;
    var store' := WithContainers(store, id, containers);
    ContainersKeepStructure(store, top, id, containers);
    forall t | t in top && t in store' ensures Typed(store', store'[t]) {
      StillTyped(store, store', store[t], store'[t]);
    }
    forall d: Def ensures OfDef(store', top, d) == OfDef(store, top, d) {
    }
    forall t | t in top ensures Composed(store', t) {
      assert Composed(store, t);
      if !store[t].Plain() {
        UnionStays(store, store', Elements(store[t].components), store[t].cpus);
      }
    }
    forall t | t in top && t in store' ensures EvenlySized(store', store'[t].components) {
      EvenStays(store, store', store[t].components);
    }
  }

  lemma ListKeepsServed(store: Store, top: seq<Id>, id: Id, cache: Cache)
    requires InStore(store, top) && id in store && store[id].containers == []
    ensures AllServed(cache, store, top) ==> AllServed(cache, store, top + [id])
  {
    forall t | t in top + [id] ensures t in top || t == id {
    }
  }

  lemma ListKeepsPins(store: Store, top: seq<Id>, id: Id, free: CpuSet, isolated: CpuSet,
                      pinCpu: bool, system: Cpus, cache: Cache, pins: map<Ctr, CpuSet>)
    requires InStore(store, top) && id in store && store[id].containers == [] && store[id].shared == {}
    ensures SharesFree(store, top, free, isolated) ==> SharesFree(store, top + [id], free, isolated)
    ensures RightPins(pinCpu, system, cache, pins, store, top) ==>
              RightPins(pinCpu, system, cache, pins, store, top + [id])
  {
    forall t | t in top + [id] ensures t in top || t == id {
    }
  }

  /** Resharing idle CPUs keeps everything but shared CPUs. */
  lemma ReshareKeepsAll(levels: map<int, seq<CpuSet>>, isolated: CpuSet, before: Store, top: seq<Id>, applied: set<Def>,
                        managed: CpuSet, free: CpuSet, add: CpuSet, remove: CpuSet, cache: Cache)
    requires Sound(before, top, applied) && Within(before, managed) && add <= free - isolated
    requires Partition(managed, free, before, Leaves(before, top))
    ensures var after := ReshareAll(levels, before, top, add, remove);
            && Sound(after, top, applied) && Within(after, managed) && SameRoster(before, after) && Grown(before, after)
            && Partition(managed, free, after, Leaves(after, top))
            && (AllServed(cache, before, top) ==> AllServed(cache, after, top))
            && (SharesFree(before, top, free, isolated) ==> SharesFree(after, top, free, isolated))
  {
    var after := ReshareAll(levels, before, top, add, remove);
    ReshareKeeps(levels, isolated, before, top, free, add, remove, Leaves(before, top));
    if SharesFree(before, top, free, isolated) {
      assert SharesFree(before, top, free + remove, isolated);
    }
    GrownKeepsSound(before, after, top, applied);
    GrownKeepsServed(before, after, top, cache);
    PartitionBySameCpus(managed, free, before, after, Leaves(before, top));
  }

  // ---- room for containers

  function Min(a: nat, b: nat): nat {
    if a < b then a else b
  }

  /** How large a balloon is thought to be able to grow, when so many more CPUs are available. */
  function Growable(b: Balloon, avail: nat): nat {
    GrowTo(b.def, |b.cpus|, avail)
  }

  function GrowTo(def: Def, have: nat, avail: nat): nat {
    if def.maxCpus == 0 || def.maxCpus > avail then 1000 * (have + avail) else 1000 * def.maxCpus
  }

  /**
   That is how large the balloon can really grow if and only if the type has no CPU limit, the limit
   can be met from available CPUs alone, or there are not enough CPUs to reach it.
   */
  lemma GrowableIsReachableIff(b: Balloon, avail: nat)
    requires WithinLimits(b) && b.def.LimitsAgree()
    ensures var reachable := if b.def.maxCpus == 0 then |b.cpus| + avail else Min(b.def.maxCpus, |b.cpus| + avail);
            Growable(b, avail) == 1000 * reachable <==>
              b.def.maxCpus == 0 || b.def.maxCpus <= avail || |b.cpus| + avail <= b.def.maxCpus
  {
  }

  /** A balloon with 4 of at most 5 CPUs, and 4 free ones, is thought to be able to grow to 8. */
  lemma GrowableCanExceedLimit(def: Def)
    requires def.maxCpus == 5
    ensures Growable(Balloon(def, 0, {0, 1, 2, 3}, {}, [], []), 4) == 8000
  {
  }

  function LeastGrowable(store: Store, components: seq<Id>, avail: nat): nat {
    if components == [] || components[0] !in store then 0
    else
      var first := Growable(store[components[0]], avail);
      if |components| == 1 then first else Min(first, LeastGrowable(store, components[1..], avail))
  }

  /** How much CPU time a balloon could provide, the free CPUs given. */
  function MaxAvail(store: Store, b: Balloon, free: CpuSet): nat {
    if b.Plain() then Growable(b, |free|)
    else Growable(b, Min(LeastGrowable(store, b.components, |free|) * |b.components| / 1000, |free|))
  }

  lemma {:induction false} LeastGrowableStays(before: Store, after: Store, components: seq<Id>, avail: nat)
    requires Grown(before, after) && forall i :: i in components ==> i in before
    ensures LeastGrowable(after, components, avail) == LeastGrowable(before, components, avail)
  {
    if components != [] {
      assert components[0] in components && SameBalloon(before[components[0]], after[components[0]]);
      LeastGrowableStays(before, after, components[1..], avail);
    }
  }

  lemma MaxAvailStays(before: Store, after: Store, id: Id, free: CpuSet)
    requires Grown(before, after) && id in before && ComponentsArePlain(before, before[id])
    ensures MaxAvail(after, after[id], free) == MaxAvail(before, before[id], free)
  {
    var components := before[id].components;
    assert SameBalloon(before[id], after[id]);
    forall i | i in components ensures i in before {
      var k :| 0 <= k < |components| && components[k] == i;
      assert IsComponent(before, components[k]);
    }
    LeastGrowableStays(before, after, components, |free|);
  }

  datatype FillMethod = SameGroup | SamePod | SameNamespace | FillNewBalloon | Balanced | BalancedInflate

  /** Balloons with containers of the same group and namespace, and of the same pod if that is known. */
  datatype Relatives = Relatives(group: set<Id>, pod: Option<set<Id>>, namespace: set<Id>)

  /** CPU time that no container of the balloon requests, now and when inflated. */
  function FreeMilli(cache: Cache, b: Balloon): int {
    b.AvailMilliCpus() - Requested(cache, b.containers)
  }

  function MaxFreeMilli(cache: Cache, store: Store, b: Balloon, free: CpuSet): int {
    MaxAvail(store, b, free) - Requested(cache, b.containers)
  }

  /** A fill method other than creating a balloon suggests this balloon. */
  predicate Suits(cache: Cache, store: Store, free: CpuSet, def: Def, fill: FillMethod, near: Relatives, milliCpus: nat, t: Id) {
    t in store && store[t].def == def &&
    match fill
    case SameGroup => t in near.group && MaxFreeMilli(cache, store, store[t], free) >= milliCpus
    case SamePod => near.pod.Some? && t in near.pod.value && MaxFreeMilli(cache, store, store[t], free) >= milliCpus
    case SameNamespace => t in near.namespace && MaxFreeMilli(cache, store, store[t], free) >= milliCpus
    case FillNewBalloon => store[t].containers == []
    case Balanced => FreeMilli(cache, store[t]) >= milliCpus
    case BalancedInflate => MaxFreeMilli(cache, store, store[t], free) >= milliCpus
  }

  lemma SuitsSame(cache: Cache, before: Store, after: Store, free: CpuSet, def: Def, fill: FillMethod,
                  near: Relatives, milliCpus: nat, t: Id)
    requires Grown(before, after) && t in before && ComponentsArePlain(before, before[t])
    ensures Suits(cache, after, free, def, fill, near, milliCpus, t) == Suits(cache, before, free, def, fill, near, milliCpus, t)
  {
    assert SameBalloon(before[t], after[t]);
    MaxAvailStays(before, after, t, free);
  }

  /** The order in which fill methods are tried. */
  function FillChain(def: Def): seq<FillMethod> {
    (if def.grouped then [SameGroup] else []) +
    (if def.spreadPods then [] else [SamePod]) +
    (if def.perNamespace then [SameNamespace, FillNewBalloon] else []) +
    (if def.preferNew then [FillNewBalloon, Balanced, BalancedInflate] else [Balanced, BalancedInflate, FillNewBalloon])
  }

  // ---- assigning and dismissing containers

  ghost predicate IsAssigned(store: Store, top: seq<Id>, c: Ctr) {
    exists t :: t in top && t in store && c in store[t].containers
  }

  ghost predicate ServedBut(cache: Cache, store: Store, top: seq<Id>, id: Id) {
    forall t :: t in top && t in store && t != id ==> Serves(cache, store, store[t])
  }

  lemma ContainersKeepServed(store: Store, top: seq<Id>, cache: Cache, id: Id, containers: seq<Ctr>)
    requires Structure(store, top) && id in store && ServedBut(cache, store, top, id)
    requires Serves(cache, store, store[id].(containers := containers))
    ensures AllServed(cache, WithContainers(store, id, containers), top)
  {
    hide Serves;
    var store' := WithContainers(store, id, containers);
    forall t | t in top && t in store' ensures Serves(cache, store', store'[t]) {
      ComponentsStay(store, store, top, t);
      ServesStill(cache, store, store', store'[t], store'[t]);
    }
  }

  /** Pinning the balloon that got a new container is enough. */
  lemma AssignKeepsPins(store: Store, top: seq<Id>, id: Id, c: Ctr, pinCpu: bool, system: Cpus, cache: Cache,
                        pins: map<Ctr, CpuSet>, pins': map<Ctr, CpuSet>)
    requires RightPins(pinCpu, system, cache, pins, store, top) && InStore(store, top) && id in top && !IsAssigned(store, top, c)
    requires var store' := WithContainers(store, id, store[id].containers + [c]);
             (pinCpu ==> Pinned(system, cache, pins', store'[id])) && forall d :: d !in store'[id].containers ==> SamePin(pins, pins', d)
    ensures RightPins(pinCpu, system, cache, pins', WithContainers(store, id, store[id].containers + [c]), top)
  {
    var store' := WithContainers(store, id, store[id].containers + [c]);
    forall t, u, d | t in top && u in top && t != u && d in store'[t].containers ensures d !in store'[u].containers {
    }
    assert c !in store[id].containers;
    forall t | pinCpu && t in top && t != id ensures Pinned(system, cache, pins', store'[t]) {
      forall d | d in store'[t].containers ensures IsPinned(system, cache, pins', store'[t], d) {
        assert IsPinned(system, cache, pins, store[t], d);
        assert SamePin(pins, pins', d);
      }
    }
  }

  /** Of different containers, some are different. */
  lemma FewerStayDistinct(a: seq<Ctr>, b: seq<Ctr>)
    requires multiset(b) <= multiset(a)
    ensures forall c :: c in b ==> c in a
    ensures Distinct(a) ==> Distinct(b)
  {
    forall c | c in b ensures c in a {
      assert c in multiset(b);
    }
    if Distinct(a) {
      forall i, j | 0 <= i < j < |b| ensures b[i] != b[j] {
        if b[i] == b[j] {
          TwiceInSeq(b, i, j);
          OnceInSeq(a, b[i]);
          assert false;
        }
      }
    }
  }

  lemma TwiceInSeq(b: seq<Ctr>, i: nat, j: nat)
    requires i < j < |b| && b[i] == b[j]
    ensures multiset(b)[b[i]] >= 2
  {
    assert b == b[..j] + [b[j]] + b[j+1..];
    assert b[..j][i] == b[i] && b[i] in multiset(b[..j]);
  }

  lemma {:induction false} OnceInSeq(a: seq<Ctr>, c: Ctr)
    requires Distinct(a)
    ensures multiset(a)[c] <= 1
  {
    if a != [] {
      var init, last := a[..|a|-1], a[|a|-1];
      assert a == init + [last];
      OnceInSeq(init, c);
      assert last !in multiset(init);
    }
  }

  lemma DismissKeepsPins(store: Store, top: seq<Id>, id: Id, containers: seq<Ctr>, pinCpu: bool, system: Cpus, cache: Cache,
                         pins: map<Ctr, CpuSet>)
    requires RightPins(pinCpu, system, cache, pins, store, top) && InStore(store, top) && id in top
    requires multiset(containers) <= multiset(store[id].containers)
    ensures RightPins(pinCpu, system, cache, pins, WithContainers(store, id, containers), top)
  {
    var store' := WithContainers(store, id, containers);
    FewerStayDistinct(store[id].containers, containers);
    forall t | pinCpu && t in top ensures Pinned(system, cache, pins, store'[t]) {
      assert Pinned(system, cache, pins, store[t]);
    }
  }

  /** Replacing an element by the last one, and dropping that, removes the element. */
  function RemoveAt(a: seq<Ctr>, i: nat): seq<Ctr>
    requires i < |a|
  {
    a[i := a[|a|-1]][..|a|-1]
  }

  lemma RemovedIsGone(a: seq<Ctr>, i: nat)
    requires i < |a|
    ensures multiset(RemoveAt(a, i)) == multiset(a) - multiset{a[i]}
    ensures forall c :: c in RemoveAt(a, i) ==> c in a
  {
    var b := a[i := a[|a|-1]];
    assert b == RemoveAt(a, i) + [a[|a|-1]];
    assert multiset(b) == multiset(a) - multiset{a[i]} + multiset{a[|a|-1]};
    assert multiset(b) == multiset(RemoveAt(a, i)) + multiset{a[|a|-1]};
    assert multiset(RemoveAt(a, i)) == multiset(b) - multiset{a[|a|-1]};
    forall c | c in RemoveAt(a, i) ensures c in a {
      assert c in multiset(RemoveAt(a, i));
    }
  }

  lemma RemovedRequest(cache: Cache, a: seq<Ctr>, i: nat)
    requires i < |a|
    ensures Requested(cache, RemoveAt(a, i)) + Request(cache, a[i]) == Requested(cache, a)
  {
    var last := a[|a|-1];
    var before := a[..i];
    if i == |a| - 1 {
      assert RemoveAt(a, i) == before && a == before + [last];
      RequestedOneMore(cache, before, last);
    } else {
      var after := a[i+1..|a|-1];
      assert a == (before + [a[i]]) + (after + [last]) && RemoveAt(a, i) == (before + [last]) + after;
      RequestedSplit(cache, before + [a[i]], after + [last]);
      RequestedSplit(cache, before + [last], after);
      RequestedOneMore(cache, before, a[i]);
      RequestedOneMore(cache, before, last);
      RequestedOneMore(cache, after, last);
    }
  }

  /** Why a container is not placed. */
  datatype Cause = NoType | PodUnknown | ClassRefused | NoBalloon | NoCpus(id: Id)

  datatype Placement = Preserved | Placed(id: Id) | Failed(why: Cause)

  /** The container is in the balloon, after those that were there, and no other balloon has changed containers. */
  ghost predicate PlacedOnly(before: Store, after: Store, top: seq<Id>, id: Id, c: Ctr) {
    && (forall t :: t in top && t in before && t != id ==> t in after && after[t].containers == before[t].containers)
    && id in after && after[id].containers == (if id in top && id in before then before[id].containers else []) + [c]
  }

  /** Balloons listed since have no containers but the given one, if that has been placed. */
  ghost predicate NewHoldOnly(store: Store, top: seq<Id>, top': seq<Id>, placed: bool, c: Ctr) {
    forall t, d :: t in top' && t !in top && t in store && d in store[t].containers ==> placed && d == c
  }

  lemma NoneListed(store: Store, top: seq<Id>, c: Ctr)
    ensures forall placed: bool :: NewHoldOnly(store, top, top, placed, c)
  {
  }

  lemma ListedEmpty(store: Store, top: seq<Id>, top': seq<Id>, c: Ctr)
    requires forall t :: t in top' && t !in top && t in store ==> store[t].containers == []
    ensures NewHoldOnly(store, top, top', false, c)
  {
  }

  /** What holds after a balloon was found, grown if need be, and given the container unless that failed. */
  lemma AfterPlacing(before: Store, start: Store, sized: Store, top: seq<Id>, top': seq<Id>, id: Id, c: Ctr)
    requires Extends(before, start) && SameRoster(start, sized) && InStore(before, top) && id in start && id in top'
    requires NewHoldOnly(start, top, top', false, c)
    ensures Extends(before, sized) && NewHoldOnly(sized, top, top', false, c)
    ensures var after := WithContainers(sized, id, sized[id].containers + [c]);
            PlacedOnly(before, after, top, id, c) && NewHoldOnly(after, top, top', true, c) && after[id].def == start[id].def
  {
    ExtendsTwice(before, start, sized);
    forall t | t in start ensures sized[t].containers == start[t].containers && sized[t].def == start[t].def {
      assert SameBalloon(start[t], sized[t]);
    }
    forall t | t in top ensures sized[t].containers == before[t].containers {
      assert SameBalloon(before[t], start[t]);
    }
    assert |sized[id].containers| > 0 ==> sized[id].containers[0] in start[id].containers;
  }

  lemma UnassignedStill(before: Store, after: Store, top: seq<Id>, top': seq<Id>, c: Ctr)
    requires !IsAssigned(before, top, c) && Extends(before, after) && InStore(before, top)
    requires NewHoldOnly(after, top, top', false, c)
    ensures !IsAssigned(after, top', c)
  {
    forall t | t in top' && t in after ensures c !in after[t].containers {
      if t in top {
        assert SameBalloon(before[t], after[t]) && c !in before[t].containers;
      }
    }
  }

  lemma BigEnoughServes(cache: Cache, store: Store, b: Balloon, c: Ctr, milliCpus: nat)
    requires milliCpus == Max(1, Request(cache, c) + Requested(cache, b.containers))
    requires b.AvailMilliCpus() >= milliCpus || Fitted(store, b, milliCpus)
    ensures Serves(cache, store, b.(containers := b.containers + [c]))
    ensures milliCpus == Demand(cache, b.containers + [c])
  {
    RequestedOneMore(cache, b.containers, c);
  }

  lemma DemandWithOneMore(cache: Cache, containers: seq<Ctr>, c: Ctr)
    ensures Demand(cache, containers + [c]) == Max(1, Request(cache, c) + Requested(cache, containers))
  {
    RequestedOneMore(cache, containers, c);
  }

  /** What a balloon has that was resized for a request. */
  ghost predicate Fitted(store: Store, b: Balloon, milliCpus: nat) {
    if b.Plain() then |b.cpus| == CpuCount(b.def, milliCpus) else Provides(store, b, milliCpus)
  }

  lemma FitsMeansFitted(store: Store, top: seq<Id>, id: Id, milliCpus: nat, managed: CpuSet, free: CpuSet)
    requires FitsRequest(store, id, milliCpus) && Structure(store, top) && id in top
    requires Partition(managed, free, store, Leaves(store, top))
    ensures Fitted(store, store[id], milliCpus)
  {
    hide Provides, Partition;
    if !store[id].Plain() {
      forall l | l in Elements(store[id].components) ensures l in Leaves(store, top) {
        assert l in LeavesOf(store, id);
      }
      FitProvides(store, id, milliCpus, managed, free, Leaves(store, top));
    }
  }

  lemma SizedServes(cache: Cache, store: Store, top: seq<Id>, id: Id, milliCpus: nat)
    requires ServedBut(cache, store, top, id) && id in store
    requires milliCpus == Demand(cache, store[id].containers) && Fitted(store, store[id], milliCpus)
    ensures AllServed(cache, store, top)
  {
  }

  lemma EmptyIsServed(cache: Cache, store: Store, top: seq<Id>, id: Id)
    requires ServedBut(cache, store, top, id) && id in store && store[id].containers == []
    ensures AllServed(cache, store, top)
  {
  }

  lemma AllServedBut(cache: Cache, store: Store, top: seq<Id>, id: Id)
    requires AllServed(cache, store, top)
    ensures ServedBut(cache, store, top, id)
  {
  }

  lemma UnlistKeepsServed(cache: Cache, store: Store, top: seq<Id>, id: Id)
    requires AllServed(cache, store, top)
    ensures AllServed(cache, store, Without(top, id))
  {
    WithoutMembers(top, id);
  }

  /** A container has left its balloon; no other balloon has changed containers, and it is gone if it is
   empty and its type has more balloons than it must. */
  ghost predicate DismissedOnly(before: Store, after: Store, top: seq<Id>, top': seq<Id>, id: Id, c: Ctr) {
    && id in top && id in before && id in after && c in before[id].containers
    && (forall t :: t in top && t in before && t != id ==> t in top' && t in after && after[t].containers == before[t].containers)
    && multiset(after[id].containers) == multiset(before[id].containers) - multiset{c}
    && top' == if after[id].containers == [] && |OfDef(before, top, before[id].def)| > before[id].def.minBalloons
               then Without(top, id) else top
  }

  // ---- the resource manager's cache

  lemma CacheKeepsServed(cache: Cache, cache': Cache, store: Store, top: seq<Id>)
    requires InStore(store, top) && AllServed(cache, store, top)
    requires forall t, c :: t in top && c in store[t].containers ==> Request(cache', c) <= Request(cache, c)
    ensures AllServed(cache', store, top)
  {
    hide Serves;
    forall t | t in top ensures Serves(cache', store, store[t]) {
      RequestedLess(cache, cache', store[t].containers);
      ServesLess(cache, cache', store, store[t], store[t].containers);
    }
  }

  lemma CacheKeepsPins(cache: Cache, cache': Cache, store: Store, top: seq<Id>, pinCpu: bool, system: Cpus, pins: map<Ctr, CpuSet>)
    requires InStore(store, top) && RightPins(pinCpu, system, cache, pins, store, top)
    requires forall t, c :: t in top && c in store[t].containers && c in cache' ==> c in cache && cache'[c] == cache[c]
    ensures RightPins(pinCpu, system, cache', pins, store, top)
  {
    forall t | pinCpu && t in top ensures Pinned(system, cache', pins, store[t]) {
      assert Pinned(system, cache, pins, store[t]);
      forall c | c in store[t].containers ensures IsPinned(system, cache', pins, store[t], c) {
        assert IsPinned(system, cache, pins, store[t], c);
      }
    }
  }

  // ---- configuration

  /** What validation demands of names and limits of balloon types. */
  ghost predicate WellConfigured(defs: seq<Def>) {
    && (forall i :: 0 <= i < |defs| ==> defs[i].name != "" && defs[i].LimitsAgree() && defs[i].CountsAgree())
    && (forall i, j :: 0 <= i < j < |defs| ==> defs[i].name != defs[j].name)
  }

  /** CPUs are divided up among free CPUs and balloons of at most one set of allowed CPUs. */
  lemma PartitionDeterminesManaged(managed: CpuSet, managed': CpuSet, free: CpuSet, store: Store, leaves: set<Id>)
    requires Partition(managed, free, store, leaves) && Partition(managed', free, store, leaves)
    ensures managed == managed'
  {
    forall c ensures c in managed <==> c in managed' {
      if c in managed && c !in free {
        var l :| l in leaves && c in store[l].cpus;
      }
      if c in managed' && c !in free {
        var l :| l in leaves && c in store[l].cpus;
      }
    }
  }

  datatype Configured = Rejected | Partial | Applied

  /** An allocation request: a container, whether to leave it alone, the type chosen for it, related balloons, and
   whether the CPU class of a new balloon can be applied. */
  datatype Order = Order(c: Ctr, preserve: bool, def: Option<Def>, near: Relatives, classApplies: bool)

  lemma OthersUnassignedStill(before: Store, after: Store, top: seq<Id>, top': seq<Id>, id: Id, c: Ctr, d: Ctr)
    requires PlacedOnly(before, after, top, id, c) && !IsAssigned(before, top, d) && d != c && InStore(before, top)
    requires NewHoldOnly(after, top, top', true, c)
    ensures !IsAssigned(after, top', d)
  {
    forall t | t in top' && t in after ensures d !in after[t].containers {
      if t in top {
        assert d !in before[t].containers;
      }
    }
  }

  lemma DismissedUnassignedStill(before: Store, after: Store, top: seq<Id>, top': seq<Id>, id: Id, c: Ctr, d: Ctr)
    requires DismissedOnly(before, after, top, top', id, c) && !IsAssigned(before, top, d) && InStore(before, top)
    ensures !IsAssigned(after, top', d)
  {
    WithoutMembers(top, id);
    forall t | t in top' && t in after ensures d !in after[t].containers {
      assert t in top && d !in before[t].containers;
      if t == id {
        assert d !in multiset(before[id].containers);
        assert d !in multiset(after[id].containers);
      }
    }
  }

  /** A container that was in one balloon, once, is in none after it has left. */
  lemma DismissedIsGone(before: Store, after: Store, top: seq<Id>, top': seq<Id>, id: Id, c: Ctr)
    requires DismissedOnly(before, after, top, top', id, c) && Separate(before, top) && InStore(before, top)
    ensures !IsAssigned(after, top', c)
  {
    WithoutMembers(top, id);
    OnceInSeq(before[id].containers, c);
    assert multiset(after[id].containers)[c] == 0;
    forall t | t in top' && t in after ensures c !in after[t].containers {
      if t == id {
        assert c !in multiset(after[id].containers);
      }
    }
  }

  /** Balloons that are new and empty do not change which containers are in a balloon. */
  lemma AssignedSame(before: Store, after: Store, top: seq<Id>, top': seq<Id>, c: Ctr)
    requires Extends(before, after) && InStore(before, top) && top <= top' && NewHoldOnly(after, top, top', false, c)
    ensures IsAssigned(before, top, c) <==> IsAssigned(after, top', c)
  {
    if IsAssigned(before, top, c) {
      var t :| t in top && t in before && c in before[t].containers;
      assert SameBalloon(before[t], after[t]) && t in top';
    } else {
      UnassignedStill(before, after, top, top', c);
    }
  }

  /** A container that is placed while in a balloon is in two, or twice in one. */
  lemma PlacedTwice(before: Store, after: Store, top: seq<Id>, top': seq<Id>, id: Id, c: Ctr)
    requires PlacedOnly(before, after, top, id, c) && IsAssigned(before, top, c) && InStore(before, top)
    requires top <= top' && id in top'
    ensures !Separate(after, top')
  {
    var t :| t in top && t in before && c in before[t].containers;
    var now := after[id].containers;
    assert now[|now|-1] == c && t in top';
    if t == id {
      var k :| 0 <= k < |before[id].containers| && before[id].containers[k] == c;
      assert now[k] == now[|now|-1];
    }
  }

  /** The balloon has the CPU time, or has been resized for it. */
  ghost predicate HasRoom(store: Store, id: Id, milliCpus: nat) {
    id in store && (store[id].AvailMilliCpus() >= milliCpus || FitsRequest(store, id, milliCpus))
  }

  lemma ContainersKeepFit(store: Store, id: Id, containers: seq<Ctr>, milliCpus: nat)
    requires id in store
    ensures FitsRequest(store, id, milliCpus) ==> FitsRequest(WithContainers(store, id, containers), id, milliCpus)
    ensures HasRoom(store, id, milliCpus) ==> HasRoom(WithContainers(store, id, containers), id, milliCpus)
  {
    var store' := WithContainers(store, id, containers);
    if FitsRequest(store, id, milliCpus) && !store[id].Plain() {
      UnionStays(store, store', Elements(store[id].components), store[id].cpus);
    }
  }

  /** After a release: a balloon that kept containers has been resized for them if that succeeded, an empty one to its minimum. */
  ghost predicate Released(cache: Cache, store: Store, id: Id, resized: bool) {
    id in store && (resized ==>
      FitsRequest(store, id, if store[id].containers == [] then 0 else Demand(cache, store[id].containers)))
  }

  /** After a release, exactly if there were CPUs for it the balloon has been resized for what remains. */
  ghost predicate ResizedIff(cache: Cache, before: Store, after: Store, id: Id, free: nat, resized: bool) {
    && id in before && id in after
    && (resized <==> CanResize(before, id, if after[id].containers == [] then 0 else Demand(cache, after[id].containers), free))
    && (before[id].Plain() || after[id].containers == [] ==> resized)
  }

  lemma ContainersKeepCpus(store: Store, id: Id, containers: seq<Ctr>, milliCpus: nat, free: nat)
    requires id in store
    ensures CanResize(WithContainers(store, id, containers), id, milliCpus, free) <==> CanResize(store, id, milliCpus, free)
  {
    var after := WithContainers(store, id, containers);
    if !store[id].Plain() {
      SumsSame(store, after, store[id].components, milliCpus / |store[id].components|);
    }
  }

  lemma {:induction false} SumsSame(before: Store, after: Store, ids: seq<Id>, milliCpus: nat)
    requires before.Keys == after.Keys && forall i :: i in before ==> after[i].cpus == before[i].cpus && after[i].def == before[i].def
    ensures SumCpus(after, ids) == SumCpus(before, ids) && SumTargets(after, ids, milliCpus) == SumTargets(before, ids, milliCpus)
  {
    if ids != [] {
      SumsSame(before, after, ids[..|ids|-1], milliCpus);
    }
  }

  lemma NewIsEmpty(before: Store, after: Store, top: seq<Id>, def: Def, id: Id)
    requires IsNew(before, after, top, def, id)
    ensures id !in before && id in after && after[id].def == def && after[id].containers == [] && ComponentsArePlain(after, after[id])
    ensures after[id].Plain() <==> def.components == []
  {
  }

  /** Undoing a resize of components, which are not listed, leaves pins as right as they were. */
  lemma UndoKeepsPins(before: Store, middle: Store, after: Store, top: seq<Id>, components: seq<Id>, original: seq<CpuSet>,
                      pinCpu: bool, system: Cpus, cache: Cache, pins: map<Ctr, CpuSet>)
    requires SameRoster(before, middle) && SameRoster(before, after) && InStore(before, top)
    requires Remembers(before, middle, components, original) && OthersSame(before, after, {})
    requires forall i :: i in after ==> after[i].shared == middle[i].shared
    requires forall i :: i in components ==> i !in top
    ensures RightPins(pinCpu, system, cache, pins, middle, top) ==> RightPins(pinCpu, system, cache, pins, after, top)
  {
    forall t | t in top ensures after[t] == middle[t] {
      assert SameBalloon(before[t], middle[t]) && SameBalloon(before[t], after[t]);
    }
  }

  /**
   A resize that fails after a component has given up CPU 1: the CPU is shared to a balloon nearby,
   and still is after it has gone back to the component.
   */
  lemma UndoneResizeBreaksSharing(def: Def, sharing: Def)
    requires sharing.shareLevel == Some(0)
    ensures var levels := map[0 := [{0, 1, 2}]];
            var part := Balloon(def, 0, {0, 1}, {}, [], []);
            var other := Balloon(sharing, 0, {2}, {}, [], []);
            var before := map[Id(0) := part, Id(1) := other];
            var deflated := ReshareAll(levels, WithCpus(before, Id(0), {0}), [Id(1)], {1}, {});
            var undone := WithCpus(deflated, Id(0), {0, 1});
            && SharesFree(before, [Id(1)], {}, {}) && SharesFree(deflated, [Id(1)], {1}, {})
            && !SharesFree(undone, [Id(1)], {}, {}) && undone[Id(1)].shared == {1} <= undone[Id(0)].cpus
  {
    var levels := map[0 := [{0, 1, 2}]];
    var elements := levels[0];
    var one: CpuSet := {1};
    var two: CpuSet := {2};
    assert elements[..0] == [] && elements[0] == {0, 1, 2};
    assert 2 in elements[0] * two && elements[0] * one == one;
    assert Nearby(elements[..0], two, one) == {};
    assert Nearby(elements, two, one) == one;
    assert Id(1) in [Id(1)];
  }

  /**
   Why types with composite components are left out. A composite balloon 1, of balloon 2, has grown by CPU 1
   as a component itself when another component fails. Undoing that takes the CPU from balloon 1 and makes
   it free, but balloon 2 keeps it.
   */
  lemma NestedUndoBreaksPartition(outer: Def, def: Def)
    ensures var part := Balloon(def, 0, {0}, {}, [], []);
            var inner := Balloon(outer, 0, {0}, {}, [], [Id(2)]);
            var before := map[Id(1) := inner, Id(2) := part];
            var grown := WithCpus(WithCpus(before, Id(2), {0, 1}), Id(1), {0, 1});
            var undone := WithCpus(grown, Id(1), {0});
            && Partition({0, 1}, {1}, before, {Id(2)}) && Composed(before, Id(1))
            && Partition({0, 1}, {}, grown, {Id(2)}) && Composed(grown, Id(1))
            && !Partition({0, 1}, {1}, undone, {Id(2)}) && !Composed(undone, Id(1))
  {
    assert Elements([Id(2)]) == {Id(2)};
    var both: CpuSet := {0, 1};
    assert 1 in both;
  }
}

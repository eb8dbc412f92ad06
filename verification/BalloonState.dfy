/**
 The state of the balloons policy and the properties that hold of it: which CPUs belong to which
 balloon, which balloons there are, what their containers request and where they are pinned.
 */
module BalloonState {
  import opened Options
  import opened CpuSets
  import opened Sorting
  import opened Priorities
  import opened Sysfs

  /** Identifies a balloon, as its address does. */
  datatype Id = Id(n: nat)

  type Ctr = string

  /** A balloon type. `id` tells types of different configurations apart. 0 CPUs or balloons at most means no limit. */
  datatype Def = Def(
    id: nat, name: string,
    minCpus: nat, maxCpus: nat,
    minBalloons: nat, maxBalloons: nat,
    components: seq<string>, balanced: bool,
    priority: CpuPriority,
    shareLevel: Option<int>, hideHyperthreads: bool,
    grouped: bool, spreadPods: bool, perNamespace: bool, preferNew: bool)
  {
    /** What configuration validation demands of CPU limits. */
    predicate LimitsAgree() {
      maxCpus == 0 || minCpus <= maxCpus
    }

    predicate CountsAgree() {
      maxBalloons == 0 || minBalloons <= maxBalloons
    }
  }

  datatype Balloon = Balloon(
    def: Def, instance: nat,
    cpus: CpuSet, shared: CpuSet,
    containers: seq<Ctr>, components: seq<Id>)
  {
    predicate Plain() {
      components == []
    }

    function AvailMilliCpus(): nat {
      1000 * |cpus|
    }
  }

  type Store = map<Id, Balloon>

  /** A container in the resource manager's cache. */
  datatype Info = Info(request: nat, hideHyperthreads: Option<bool>)

  type Cache = map<Ctr, Info>

  // ---- CPUs: free or in exactly one leaf balloon

  ghost predicate Partition(managed: CpuSet, free: CpuSet, store: Store, leaves: set<Id>) {
    && leaves <= store.Keys && free <= managed
    && (forall l :: l in leaves ==> store[l].cpus <= managed && store[l].cpus !! free)
    && (forall l, m :: l in leaves && m in leaves && l != m ==> store[l].cpus !! store[m].cpus)
    && (forall c :: c in managed && c !in free ==> exists l :: l in leaves && c in store[l].cpus)
  }

  /** The stores give the leaves the same CPUs. */
  ghost predicate SameCpus(store: Store, store': Store, leaves: set<Id>) {
    leaves <= store.Keys && leaves <= store'.Keys && forall l :: l in leaves ==> store[l].cpus == store'[l].cpus
  }

  lemma PartitionBySameCpus(managed: CpuSet, free: CpuSet, store: Store, store': Store, leaves: set<Id>)
    requires Partition(managed, free, store, leaves) && SameCpus(store, store', leaves)
    ensures Partition(managed, free, store', leaves)
  {
    forall c | c in managed && c !in free ensures exists l :: l in leaves && c in store'[l].cpus {
      var l :| l in leaves && c in store[l].cpus;
      assert c in store'[l].cpus;
    }
  }

  lemma PartitionGrow(managed: CpuSet, free: CpuSet, store: Store, leaves: set<Id>, id: Id, more: CpuSet)
    requires Partition(managed, free, store, leaves) && id in leaves && more <= free
    ensures Partition(managed, free - more, store[id := store[id].(cpus := store[id].cpus + more)], leaves)
  {
    var store' := store[id := store[id].(cpus := store[id].cpus + more)];
    forall c | c in managed && c !in free - more ensures exists l :: l in leaves && c in store'[l].cpus {
      if c in more {
        assert c in store'[id].cpus;
      } else {
        var l :| l in leaves && c in store[l].cpus;
        assert c in store'[l].cpus;
      }
    }
  }

  lemma PartitionShrink(managed: CpuSet, free: CpuSet, store: Store, leaves: set<Id>, id: Id, less: CpuSet)
    requires Partition(managed, free, store, leaves) && id in leaves && less <= store[id].cpus
    ensures Partition(managed, free + less, store[id := store[id].(cpus := store[id].cpus - less)], leaves)
  {
    var store' := store[id := store[id].(cpus := store[id].cpus - less)];
    forall c | c in managed && c !in free + less ensures exists l :: l in leaves && c in store'[l].cpus {
      var l :| l in leaves && c in store[l].cpus;
      assert c in store'[l].cpus;
    }
  }

  lemma PartitionAdd(managed: CpuSet, free: CpuSet, store: Store, leaves: set<Id>, id: Id, b: Balloon)
    requires Partition(managed, free, store, leaves) && id !in store && b.cpus == {}
    ensures Partition(managed, free, store[id := b], leaves + {id})
  {
    var store' := store[id := b];
    forall c | c in managed && c !in free ensures exists l :: l in leaves + {id} && c in store'[l].cpus {
      var l :| l in leaves && c in store[l].cpus;
      assert l in leaves + {id} && c in store'[l].cpus;
    }
  }

  lemma PartitionDrop(managed: CpuSet, free: CpuSet, store: Store, leaves: set<Id>, gone: set<Id>, cpus: CpuSet)
    requires Partition(managed, free, store, leaves) && gone <= leaves && IsUnion(store, gone, cpus)
    ensures Partition(managed, free + cpus, store, leaves - gone)
  {
    forall l | l in leaves - gone ensures store[l].cpus !! free + cpus {
      if !(store[l].cpus !! cpus) {
        var c := CommonMember(store[l].cpus, cpus);
        assert false;
      }
    }
    forall c | c in managed && c !in free + cpus ensures exists l :: l in leaves - gone && c in store[l].cpus {
      var l :| l in leaves && c in store[l].cpus;
      assert l in leaves - gone;
    }
    forall c | c in cpus ensures c in managed {
      var g :| g in gone && c in store[g].cpus;
    }
  }

  /** What is free follows from what the leaves have. */
  lemma PartitionDeterminesFree(managed: CpuSet, free: CpuSet, free': CpuSet, store: Store, store': Store, leaves: set<Id>)
    requires Partition(managed, free, store, leaves) && Partition(managed, free', store', leaves)
    requires SameCpus(store, store', leaves)
    ensures free == free'
  {
    forall c | c in managed ensures c in free <==> c in free' {
      if c !in free {
        var l :| l in leaves && c in store[l].cpus;
        assert c in store'[l].cpus;
      }
      if c !in free' {
        var l :| l in leaves && c in store'[l].cpus;
        assert c in store[l].cpus;
      }
    }
  }

  /** `cpus` are the CPUs of the given balloons. */
  ghost predicate IsUnion(store: Store, ids: set<Id>, cpus: CpuSet) {
    && ids <= store.Keys
    && (forall i :: i in ids ==> store[i].cpus <= cpus)
    && (forall c :: c in cpus ==> exists i :: i in ids && c in store[i].cpus)
  }

  lemma UnionStep(store: Store, store': Store, ids: seq<Id>, id: Id, cpus: CpuSet)
    requires id in store' && store.Keys <= store'.Keys && IsUnion(store, Elements(ids), cpus)
    requires forall i :: i in ids ==> i in store && store'[i].cpus == store[i].cpus
    ensures IsUnion(store', Elements(ids + [id]), cpus + store'[id].cpus)
  {
    assert id in Elements(ids + [id]);
    forall c | c in cpus + store'[id].cpus ensures exists i :: i in Elements(ids + [id]) && c in store'[i].cpus {
      if c in cpus {
        var i :| i in Elements(ids) && c in store[i].cpus;
        assert i in Elements(ids + [id]) && c in store'[i].cpus;
      }
    }
  }

  lemma UnionStays(store: Store, store': Store, ids: set<Id>, cpus: CpuSet)
    requires IsUnion(store, ids, cpus) && SameCpus(store, store', ids)
    ensures IsUnion(store', ids, cpus)
  {
    forall c | c in cpus ensures exists i :: i in ids && c in store'[i].cpus {
      var i :| i in ids && c in store[i].cpus;
      assert c in store'[i].cpus;
    }
  }

  lemma UnionWithout(store: Store, init: seq<Id>, last: Id, cpus: CpuSet)
    requires last !in init && IsUnion(store, Elements(init + [last]), cpus)
    requires forall i :: i in init ==> i in store && store[i].cpus !! store[last].cpus
    ensures store[last].cpus <= cpus && IsUnion(store, Elements(init), cpus - store[last].cpus)
  {
    assert last in Elements(init + [last]);
    var rest := cpus - store[last].cpus;
    forall i | i in init ensures store[i].cpus <= rest {
      assert i in Elements(init + [last]);
    }
    forall c | c in rest ensures exists i :: i in Elements(init) && c in store[i].cpus {
      var i :| i in Elements(init + [last]) && c in store[i].cpus;
      assert i in Elements(init);
    }
  }

  lemma DistinctInit(ids: seq<Id>)
    requires Distinct(ids) && ids != []
    ensures var init, last := ids[..|ids|-1], ids[|ids|-1];
            && ids == init + [last] && Distinct(init) && last in ids && last !in init
            && forall i :: i in init ==> i in ids
  {
    var init, last := ids[..|ids|-1], ids[|ids|-1];
    assert ids == init + [last];
  }

  /** CPUs of disjoint balloons add up. */
  lemma {:induction false} UnionSize(store: Store, ids: seq<Id>, cpus: CpuSet, each: nat)
    requires Distinct(ids) && IsUnion(store, Elements(ids), cpus)
    requires forall i :: i in ids ==> i in store && 1000 * |store[i].cpus| >= each
    requires forall i, j :: i in ids && j in ids && i != j ==> store[i].cpus !! store[j].cpus
    ensures 1000 * |cpus| >= |ids| * each
  {
    hide IsUnion, Elements, Distinct;
    if ids != [] {
      var init, last := ids[..|ids|-1], ids[|ids|-1];
      DistinctInit(ids);
      UnionWithout(store, init, last, cpus);
      var rest := cpus - store[last].cpus;
      UnionSize(store, init, rest, each);
      DisjointUnionSize(rest, store[last].cpus);
      assert cpus == rest + store[last].cpus;
      OneMoreShare(|init|, each);
    }
  }

  lemma OneMoreShare(n: nat, each: nat)
    ensures (n + 1) * each == n * each + each
  {
  }

  // ---- the balloons there are

  /** The leaf balloons of a balloon: itself, or its components. */
  ghost function LeavesOf(store: Store, id: Id): set<Id>
    requires id in store
  {
    if store[id].Plain() then {id} else Elements(store[id].components)
  }

  ghost predicate InStore(store: Store, top: seq<Id>) {
    forall t :: t in top ==> t in store
  }

  ghost function Leaves(store: Store, top: seq<Id>): set<Id>
    requires InStore(store, top)
  {
    set t, l | t in top && l in LeavesOf(store, t) :: l
  }

  /** Components are plain balloons, and no balloon is listed or contained twice. */
  ghost predicate Structure(store: Store, top: seq<Id>) {
    && Distinct(top) && InStore(store, top)
    && (forall t :: t in top ==> ComponentsArePlain(store, store[t]))
    && (forall t, u :: t in top && u in top && t != u ==> LeavesOf(store, t) !! LeavesOf(store, u))
  }

  ghost predicate IsComponent(store: Store, id: Id) {
    id in store && store[id].Plain() && store[id].containers == []
  }

  ghost predicate ComponentsArePlain(store: Store, b: Balloon) {
    && Distinct(b.components)
    && (forall i :: 0 <= i < |b.components| ==> IsComponent(store, b.components[i]))
  }

  /** A composite balloon has the CPUs of its components. */
  ghost predicate Composed(store: Store, id: Id) {
    id in store && (store[id].Plain() || IsUnion(store, Elements(store[id].components), store[id].cpus))
  }

  predicate SameBalloon(a: Balloon, b: Balloon) {
    a.def == b.def && a.instance == b.instance && a.components == b.components && a.containers == b.containers
  }

  /** All balloons are still there, with same types, components and containers; only CPUs may differ. */
  ghost predicate Extends(store: Store, store': Store) {
    store.Keys <= store'.Keys && forall i :: i in store ==> SameBalloon(store[i], store'[i])
  }

  ghost predicate SameRoster(store: Store, store': Store) {
    store.Keys == store'.Keys && Extends(store, store')
  }

  lemma ExtendsItself(store: Store)
    ensures Extends(store, store)
  {
  }

  lemma ExtendsTwice(a: Store, b: Store, c: Store)
    requires Extends(a, b) && Extends(b, c)
    ensures Extends(a, c)
  {
    forall i | i in a ensures SameBalloon(a[i], c[i]) {
      assert SameBalloon(a[i], b[i]) && SameBalloon(b[i], c[i]);
    }
  }

  lemma ExtendsKeeps(store: Store, store': Store, top: seq<Id>)
    requires Extends(store, store') && Structure(store, top)
    ensures Structure(store', top) && Leaves(store', top) == Leaves(store, top)
    ensures forall t :: t in top ==> LeavesOf(store', t) == LeavesOf(store, t)
  {
    forall t | t in top ensures LeavesOf(store', t) == LeavesOf(store, t) && ComponentsArePlain(store', store'[t]) {
      assert SameBalloon(store[t], store'[t]) && ComponentsArePlain(store, store[t]);
      forall i | 0 <= i < |store[t].components| ensures IsComponent(store', store[t].components[i]) {
        assert IsComponent(store, store[t].components[i]);
        assert SameBalloon(store[store[t].components[i]], store'[store[t].components[i]]);
      }
    }
  }

  /** Balloons of a type. */
  ghost function OfDef(store: Store, top: seq<Id>, def: Def): set<Id> {
    set t | t in top && t in store && store[t].def == def
  }

  /** Instance numbers tell the balloons of a type apart, and types have no more balloons than allowed. */
  ghost predicate Numbered(store: Store, top: seq<Id>) {
    && (forall t, u :: t in top && u in top && t != u && t in store && u in store && store[t].def == store[u].def ==>
          store[t].instance != store[u].instance)
    && (forall d: Def :: d.maxBalloons > 0 ==> |OfDef(store, top, d)| <= d.maxBalloons)
  }

  /** The given types have as many balloons as they always must. */
  ghost predicate Enough(store: Store, top: seq<Id>, defs: set<Def>) {
    forall d :: d in defs ==> |OfDef(store, top, d)| >= d.minBalloons
  }

  lemma ExtendsCounts(store: Store, store': Store, top: seq<Id>, defs: set<Def>)
    requires Extends(store, store') && InStore(store, top)
    ensures Numbered(store, top) ==> Numbered(store', top)
    ensures Enough(store, top, defs) ==> Enough(store', top, defs)
    ensures forall d: Def :: OfDef(store', top, d) == OfDef(store, top, d)
  {
    forall d: Def ensures OfDef(store', top, d) == OfDef(store, top, d) {
      forall t ensures t in OfDef(store', top, d) <==> t in OfDef(store, top, d) {
        if t in top { assert SameBalloon(store[t], store'[t]); }
      }
    }
    if Numbered(store, top) {
      forall t, u | t in top && u in top && t != u && store'[t].def == store'[u].def
        ensures store'[t].instance != store'[u].instance
      {
        assert SameBalloon(store[t], store'[t]) && SameBalloon(store[u], store'[u]);
      }
    }
  }

  /** Listing a new balloon. */
  lemma ListNew(store: Store, top: seq<Id>, id: Id)
    requires Structure(store, top) && id in store && id !in top && ComponentsArePlain(store, store[id])
    requires LeavesOf(store, id) !! Leaves(store, top)
    ensures Structure(store, top + [id]) && Leaves(store, top + [id]) == Leaves(store, top) + LeavesOf(store, id)
  {
    var top' := top + [id];
    forall t ensures t in top' <==> t in top || t == id {
    }
    forall l ensures l in Leaves(store, top') <==> l in Leaves(store, top) + LeavesOf(store, id) {
    }
    forall t | t in top ensures LeavesOf(store, t) !! LeavesOf(store, id) {
      forall l | l in LeavesOf(store, t) ensures l in Leaves(store, top) {
      }
    }
  }

  lemma ListNewOfDef(store: Store, top: seq<Id>, id: Id, d: Def)
    requires id in store && id !in top
    ensures OfDef(store, top + [id], d) == OfDef(store, top, d) + if store[id].def == d then {id} else {}
    ensures |OfDef(store, top + [id], d)| == |OfDef(store, top, d)| + if store[id].def == d then 1 else 0
  {
    assert forall t :: t in top + [id] <==> t in top || t == id;
    assert OfDef(store, top + [id], d) == OfDef(store, top, d) + if store[id].def == d then {id} else {};
  }

  lemma ListNewCounts(store: Store, top: seq<Id>, id: Id, defs: set<Def>)
    requires Distinct(top) && InStore(store, top) && id in store && id !in top
    requires Numbered(store, top) && Enough(store, top, defs)
    requires forall t :: t in top && store[t].def == store[id].def ==> store[t].instance != store[id].instance
    requires store[id].def.maxBalloons > 0 ==> |OfDef(store, top, store[id].def)| < store[id].def.maxBalloons
    ensures Numbered(store, top + [id]) && Enough(store, top + [id], defs)
    ensures |OfDef(store, top + [id], store[id].def)| == |OfDef(store, top, store[id].def)| + 1
  {
    hide OfDef;
    assert forall t :: t in top + [id] <==> t in top || t == id;
    forall d: Def ensures |OfDef(store, top + [id], d)| == |OfDef(store, top, d)| + if store[id].def == d then 1 else 0 {
      ListNewOfDef(store, top, id, d);
    }
  }

  /** The listed balloons without one of them. */
  function Without(top: seq<Id>, id: Id): seq<Id> {
    if top == [] then []
    else Without(top[..|top|-1], id) + if top[|top|-1] == id then [] else [top[|top|-1]]
  }

  lemma {:induction false} WithoutMembers(top: seq<Id>, id: Id)
    ensures forall t :: t in Without(top, id) <==> t in top && t != id
    ensures Distinct(top) ==> Distinct(Without(top, id))
  {
    if top != [] {
      var init, last := top[..|top|-1], top[|top|-1];
      WithoutMembers(init, id);
      assert top == init + [last];
      if Distinct(top) {
        assert last !in init;
        assert last !in Without(init, id);
      }
    }
  }

  lemma {:induction false} WithoutAbsent(top: seq<Id>, id: Id)
    requires id !in top
    ensures Without(top, id) == top
  {
    if top != [] {
      var init, last := top[..|top|-1], top[|top|-1];
      assert top == init + [last];
      assert last in top;
      WithoutAbsent(init, id);
    }
  }

  lemma Unlist(store: Store, top: seq<Id>, id: Id)
    requires Structure(store, top)
    ensures Structure(store, Without(top, id))
    ensures id in top ==> Leaves(store, Without(top, id)) == Leaves(store, top) - LeavesOf(store, id)
  {
    WithoutMembers(top, id);
    if id in top {
      forall l ensures l in Leaves(store, Without(top, id)) <==> l in Leaves(store, top) - LeavesOf(store, id) {
      }
    }
  }

  lemma UnlistOfDef(store: Store, top: seq<Id>, id: Id, d: Def)
    requires InStore(store, top) && id in top
    ensures OfDef(store, Without(top, id), d) == OfDef(store, top, d) - {id}
    ensures |OfDef(store, Without(top, id), d)| == |OfDef(store, top, d)| - if store[id].def == d then 1 else 0
  {
    WithoutMembers(top, id);
    var all := OfDef(store, top, d);
    assert OfDef(store, Without(top, id), d) == all - {id};
    if store[id].def == d {
      assert all == (all - {id}) + {id};
    } else {
      assert all - {id} == all;
    }
  }

  lemma UnlistCounts(store: Store, top: seq<Id>, id: Id, defs: set<Def>)
    requires Distinct(top) && InStore(store, top) && id in top
    requires Numbered(store, top) && Enough(store, top, defs)
    requires store[id].def in defs ==> |OfDef(store, top, store[id].def)| > store[id].def.minBalloons
    ensures Numbered(store, Without(top, id)) && Enough(store, Without(top, id), defs)
  {
    hide OfDef;
    WithoutMembers(top, id);
    forall d: Def ensures |OfDef(store, Without(top, id), d)| == |OfDef(store, top, d)| - if store[id].def == d then 1 else 0 {
      UnlistOfDef(store, top, id, d);
    }
  }

  // ---- sizes

  function Clamp(n: nat, def: Def): nat {
    var atMost := if def.maxCpus > 0 && n > def.maxCpus then def.maxCpus else n;
    if def.minCpus > 0 && atMost < def.minCpus then def.minCpus else atMost
  }

  /** The number of CPUs a plain balloon is resized to. */
  function CpuCount(def: Def, milliCpus: nat): nat {
    Clamp((milliCpus + 999) / 1000, def)
  }

  lemma CpuCountGrows(def: Def, m: nat, n: nat)
    requires m <= n
    ensures CpuCount(def, m) <= CpuCount(def, n)
  {
  }

  /** Balloons that have been resized for the same request. */
  ghost predicate EqualSized(store: Store, ids: seq<Id>, milliCpus: nat) {
    forall i :: i in ids ==> i in store && |store[i].cpus| == CpuCount(store[i].def, milliCpus)
  }

  ghost predicate EvenlySized(store: Store, ids: seq<Id>) {
    exists milliCpus: nat :: EqualSized(store, ids, milliCpus)
  }

  /** Components of a balloon always have been resized for the same request, so they grow or shrink together. */
  ghost predicate AllEven(store: Store, top: seq<Id>) {
    forall t :: t in top && t in store ==> EvenlySized(store, store[t].components)
  }

  ghost predicate WithinLimits(b: Balloon) {
    b.def.minCpus <= |b.cpus| && (b.def.maxCpus > 0 && b.def.LimitsAgree() ==> |b.cpus| <= b.def.maxCpus)
  }

  lemma CpuCountWithinLimits(def: Def, milliCpus: nat)
    ensures def.minCpus <= CpuCount(def, milliCpus)
    ensures def.maxCpus > 0 ==> (CpuCount(def, milliCpus) <= def.maxCpus <==> def.LimitsAgree())
    ensures 1000 * CpuCount(def, milliCpus) < milliCpus ==> def.maxCpus > 0 && CpuCount(def, milliCpus) >= def.maxCpus
    ensures CpuCount(def, milliCpus) > def.minCpus ==> 1000 * (CpuCount(def, milliCpus) - 1) < milliCpus
  {
  }

  /** Leaf balloons are as large as their types say. */
  ghost predicate LimitsHold(store: Store, leaves: set<Id>) {
    forall l :: l in leaves && l in store ==> WithinLimits(store[l])
  }

  ghost predicate AllComposed(store: Store, top: seq<Id>) {
    forall t :: t in top ==> Composed(store, t)
  }

  /** Resizing one balloon leaves the others as they are. */
  lemma ResizeKeeps(before: Store, after: Store, top: seq<Id>, id: Id)
    requires Structure(before, top) && SameRoster(before, after) && id in top
    requires forall i :: i in before && i != id && i !in LeavesOf(before, id) ==> after[i].cpus == before[i].cpus
    requires LimitsHold(before, Leaves(before, top)) && AllComposed(before, top)
    requires LimitsHold(after, LeavesOf(before, id)) && Composed(after, id)
    ensures Structure(after, top) && Leaves(after, top) == Leaves(before, top)
    ensures LimitsHold(after, Leaves(after, top)) && AllComposed(after, top)
  {
    ExtendsKeeps(before, after, top);
    forall l | l in Leaves(after, top) ensures WithinLimits(after[l]) {
      if l !in LeavesOf(before, id) {
        var t :| t in top && l in LeavesOf(before, t);
        assert SameBalloon(before[l], after[l]);
        LeafIsPlain(before, top, l);
      }
    }
    forall t | t in top && t != id ensures Composed(after, t) {
      ComposedStays(before, after, top, t, id);
    }
  }

  lemma LeafIsPlain(store: Store, top: seq<Id>, l: Id)
    requires Structure(store, top) && l in Leaves(store, top)
    ensures l in store && store[l].Plain()
  {
    var t :| t in top && l in LeavesOf(store, t);
    if !store[t].Plain() {
      var i :| 0 <= i < |store[t].components| && store[t].components[i] == l;
      assert ComponentsArePlain(store, store[t]) && IsComponent(store, store[t].components[i]);
    }
  }

  lemma ComposedStays(before: Store, after: Store, top: seq<Id>, t: Id, id: Id)
    requires Structure(before, top) && SameRoster(before, after) && id in top && t in top && t != id
    requires forall i :: i in before && i != id && i !in LeavesOf(before, id) ==> after[i].cpus == before[i].cpus
    requires Composed(before, t)
    ensures Composed(after, t)
  {
    assert SameBalloon(before[t], after[t]);
    if !before[t].Plain() {
      forall l | l in Elements(before[t].components) ensures l in before && after[l].cpus == before[l].cpus {
        assert l in LeavesOf(before, t) && l in Leaves(before, top);
        LeafIsPlain(before, top, l);
      }
      if t in LeavesOf(before, id) {
        assert t in Leaves(before, top);
        LeafIsPlain(before, top, t);
        assert false;
      }
      UnionStays(before, after, Elements(before[t].components), before[t].cpus);
    }
  }

  // ---- requests

  function Request(cache: Cache, c: Ctr): nat {
    if c in cache then cache[c].request else 0
  }

  function Requested(cache: Cache, containers: seq<Ctr>): nat {
    if containers == [] then 0
    else Requested(cache, containers[..|containers|-1]) + Request(cache, containers[|containers|-1])
  }

  lemma RequestedOneMore(cache: Cache, containers: seq<Ctr>, c: Ctr)
    ensures Requested(cache, containers + [c]) == Requested(cache, containers) + Request(cache, c)
  {
    assert (containers + [c])[..|containers|] == containers;
  }

  lemma {:induction false} RequestedSplit(cache: Cache, a: seq<Ctr>, b: seq<Ctr>)
    ensures Requested(cache, a + b) == Requested(cache, a) + Requested(cache, b)
  {
    if b == [] {
      assert a + b == a;
    } else {
      var init, last := b[..|b|-1], b[|b|-1];
      assert a + b == (a + init) + [last] && b == init + [last];
      RequestedSplit(cache, a, init);
      RequestedOneMore(cache, a + init, last);
    }
  }

  lemma {:induction false} RequestedLess(cache: Cache, cache': Cache, containers: seq<Ctr>)
    requires forall c :: c in containers ==> Request(cache', c) <= Request(cache, c)
    ensures Requested(cache', containers) <= Requested(cache, containers)
  {
    if containers != [] {
      RequestedLess(cache, cache', containers[..|containers|-1]);
    }
  }

  function Max(a: int, b: int): int {
    if a > b then a else b
  }

  /** The CPU time to provide for containers: at least a little, so that they have a CPU. */
  function Demand(cache: Cache, containers: seq<Ctr>): nat {
    Max(1, Requested(cache, containers))
  }

  /** CPUs that the requests of a balloon call for, as far as the type allows. */
  function Needed(def: Def, milliCpus: nat): nat {
    var n := (Max(1, milliCpus) + 999) / 1000;
    if def.maxCpus > 0 && n > def.maxCpus then def.maxCpus else n
  }

  /** Components have CPUs when sized for an equal share each: there is something to share, or a type demands a CPU. */
  ghost predicate GetsCpus(store: Store, components: seq<Id>, milliCpus: nat) {
    milliCpus >= |components| || exists i :: i in components && i in store && store[i].def.minCpus > 0
  }

  ghost predicate Unlimited(store: Store, components: seq<Id>) {
    forall i :: i in components && i in store ==> store[i].def.maxCpus == 0
  }

  /** What a composite balloon provides: CPUs if it gets any, and all but rounding of the shares if types set no limits. */
  ghost predicate Provides(store: Store, b: Balloon, milliCpus: nat) {
    && (GetsCpus(store, b.components, milliCpus) ==> b.cpus != {})
    && (Unlimited(store, b.components) ==> 1000 * |b.cpus| >= milliCpus - (|b.components| - 1))
  }

  /**
   A plain balloon with containers has the CPUs they call for, and at least one; a composite one
   provides what they call for.
   */
  ghost predicate Serves(cache: Cache, store: Store, b: Balloon) {
    b.containers != [] ==>
      if b.Plain() then |b.cpus| >= Needed(b.def, Requested(cache, b.containers))
      else Provides(store, b, Demand(cache, b.containers))
  }

  lemma NeededGrows(def: Def, m: nat, n: nat)
    requires m <= n
    ensures Needed(def, m) <= Needed(def, n)
  {
  }

  /** Serving containers is serving fewer of them. */
  lemma ServesLess(cache: Cache, cache': Cache, store: Store, b: Balloon, containers: seq<Ctr>)
    requires Serves(cache, store, b) && (b.containers == [] ==> containers == [])
    requires Requested(cache', containers) <= Requested(cache, b.containers)
    ensures Serves(cache', store, b.(containers := containers))
  {
    NeededGrows(b.def, Requested(cache', containers), Requested(cache, b.containers));
  }

  /** A balloon that keeps its CPUs serves its containers as before. */
  lemma ServesStill(cache: Cache, before: Store, after: Store, a: Balloon, b: Balloon)
    requires Serves(cache, before, a) && SameBalloon(a, b) && a.cpus == b.cpus
    requires forall i :: i in a.components ==> i in before && i in after && before[i].def == after[i].def
    ensures Serves(cache, after, b)
  {
    assert GetsCpus(after, b.components, Demand(cache, b.containers)) ==> GetsCpus(before, a.components, Demand(cache, a.containers));
    assert Unlimited(after, b.components) ==> Unlimited(before, a.components);
  }

  /** Without a CPU limit, a balloon that serves its containers has all the CPU time they request, but for rounding. */
  lemma ServesRequests(cache: Cache, store: Store, b: Balloon)
    requires Serves(cache, store, b) && b.containers != []
    ensures b.Plain() ==> b.cpus != {} && (b.def.maxCpus == 0 ==> 1000 * |b.cpus| >= Requested(cache, b.containers))
    ensures !b.Plain() && Unlimited(store, b.components) ==>
              1000 * |b.cpus| >= Requested(cache, b.containers) - (|b.components| - 1)
  {
  }

  // ---- pinning

  /** Shared idle CPUs are free and not isolated. */
  ghost predicate SharesFree(store: Store, top: seq<Id>, free: CpuSet, isolated: CpuSet) {
    forall t :: t in top && t in store ==> store[t].shared <= free - isolated
  }

  /** No container is in two balloons, or twice in one. */
  ghost predicate Separate(store: Store, ids: seq<Id>) {
    && (forall t :: t in ids && t in store ==> Distinct(store[t].containers))
    && (forall t, u, c :: t in ids && u in ids && t != u && t in store && u in store && c in store[t].containers ==>
          c !in store[u].containers)
  }

  predicate HidesHyperthreads(def: Def, info: Info) {
    if info.hideHyperthreads.Some? then info.hideHyperthreads.value else def.hideHyperthreads
  }

  /** CPUs a container of a balloon may run on. */
  ghost function AllowedCpus(system: Cpus, b: Balloon, info: Info): CpuSet {
    if HidesHyperthreads(b.def, info) then SmallestThreads(system, b.cpus + b.shared) else b.cpus + b.shared
  }

  ghost predicate IsPinned(system: Cpus, cache: Cache, pins: map<Ctr, CpuSet>, b: Balloon, c: Ctr) {
    c in cache ==> c in pins && pins[c] == AllowedCpus(system, b, cache[c])
  }

  ghost predicate Pinned(system: Cpus, cache: Cache, pins: map<Ctr, CpuSet>, b: Balloon) {
    forall c :: c in b.containers ==> IsPinned(system, cache, pins, b, c)
  }

  /** Every cached container of every balloon is pinned where it should be. */
  ghost predicate AllPinned(system: Cpus, cache: Cache, pins: map<Ctr, CpuSet>, store: Store, top: seq<Id>) {
    forall t :: t in top && t in store ==> Pinned(system, cache, pins, store[t])
  }

  /** CPUs of a listed balloon, plain or composite, are those of its leaves. */
  lemma CpusOfLeaves(store: Store, top: seq<Id>, t: Id, c: int)
    requires Structure(store, top) && t in top && Composed(store, t) && c in store[t].cpus
    ensures exists l :: l in LeavesOf(store, t) && l in store && l in Leaves(store, top) && c in store[l].cpus
  {
    if store[t].Plain() {
      assert t in LeavesOf(store, t) && t in Leaves(store, top);
    } else {
      var l :| l in Elements(store[t].components) && c in store[l].cpus;
      assert l in LeavesOf(store, t) && l in Leaves(store, top);
    }
  }

  lemma BalloonsApart(managed: CpuSet, free: CpuSet, store: Store, top: seq<Id>, t: Id, u: Id)
    requires Structure(store, top) && Partition(managed, free, store, Leaves(store, top))
    requires t in top && u in top && t != u && Composed(store, t) && Composed(store, u)
    ensures store[t].cpus !! store[u].cpus && store[u].cpus !! free
  {
    if !(store[t].cpus !! store[u].cpus) {
      var c := CommonMember(store[t].cpus, store[u].cpus);
      CpusOfLeaves(store, top, t, c);
      CpusOfLeaves(store, top, u, c);
      assert false;
    }
    if !(store[u].cpus !! free) {
      var c := CommonMember(store[u].cpus, free);
      CpusOfLeaves(store, top, u, c);
      assert false;
    }
  }

  /** CPUs a container can run on: an empty pin is no pin. */
  function RunsOn(pin: CpuSet, all: CpuSet): CpuSet {
    if pin == {} then all else pin
  }

  /** Single threads are left of any CPUs. */
  lemma AllowedUnlessNone(system: Cpus, b: Balloon, info: Info)
    ensures AllowedCpus(system, b, info) == {} <==> b.cpus + b.shared == {}
  {
    var cpus := b.cpus + b.shared;
    if cpus != {} {
      var c := MinOf(cpus);
      assert c in SmallestThreads(system, cpus);
    }
  }

  /** Containers are never pinned to CPUs of other balloons, and pinned at all unless their balloon has no CPUs. */
  lemma NoForeignCpus(managed: CpuSet, free: CpuSet, isolated: CpuSet, store: Store, top: seq<Id>,
                      system: Cpus, cache: Cache, pins: map<Ctr, CpuSet>, t: Id, u: Id, c: Ctr)
    requires Structure(store, top) && Partition(managed, free, store, Leaves(store, top))
    requires SharesFree(store, top, free, isolated) && AllPinned(system, cache, pins, store, top)
    requires t in top && u in top && t != u && Composed(store, t) && Composed(store, u)
    requires c in store[t].containers && c in cache
    ensures c in pins && pins[c] !! store[u].cpus && pins[c] <= store[t].cpus + (free - isolated)
    ensures pins[c] == {} <==> store[t].cpus + store[t].shared == {}
  {
    assert Pinned(system, cache, pins, store[t]) && IsPinned(system, cache, pins, store[t], c);
    AllowedUnlessNone(system, store[t], cache[c]);
    BalloonsApart(managed, free, store, top, t, u);
    assert pins[c] <= store[t].cpus + store[t].shared;
  }

  /** The pin of a container is the same, or there is none. */
  ghost predicate SamePin(pins: map<Ctr, CpuSet>, pins': map<Ctr, CpuSet>, c: Ctr) {
    (c in pins <==> c in pins') && (c in pins ==> pins[c] == pins'[c])
  }

  /** Repinning some balloons changes the pins of their containers only. */
  ghost predicate OnlyRepinned(pins: map<Ctr, CpuSet>, pins': map<Ctr, CpuSet>, store: Store, ids: seq<Id>) {
    forall c :: (forall t :: t in ids && t in store ==> c !in store[t].containers) ==> SamePin(pins, pins', c)
  }

  /**
   Repinning just the balloons whose CPUs have changed is as good as repinning them all: the others
   were pinned right, and keep their pins.
   */
  lemma RepinChanged(system: Cpus, cache: Cache, pins: map<Ctr, CpuSet>, pins': map<Ctr, CpuSet>,
                     store: Store, store': Store, top: seq<Id>, ids: seq<Id>)
    requires InStore(store, top) && SameRoster(store, store') && Separate(store, top)
    requires AllPinned(system, cache, pins, store, top) && OnlyRepinned(pins, pins', store', ids)
    requires forall t :: t in ids ==> t in store' && (t in top || store'[t].containers == [])
    requires forall t :: t in ids ==> Pinned(system, cache, pins', store'[t])
    requires forall t :: t in top && t !in ids ==> store'[t].cpus == store[t].cpus && store'[t].shared == store[t].shared
    ensures AllPinned(system, cache, pins', store', top)
  {
    forall t | t in top && t !in ids ensures Pinned(system, cache, pins', store'[t]) {
      assert Pinned(system, cache, pins, store[t]) && SameBalloon(store[t], store'[t]);
      forall c | c in store'[t].containers ensures IsPinned(system, cache, pins', store'[t], c) {
        assert IsPinned(system, cache, pins, store[t], c);
        forall u | u in ids && u in store' ensures c !in store'[u].containers {
          assert SameBalloon(store[u], store'[u]);
        }
        assert SamePin(pins, pins', c);
      }
    }
  }
}

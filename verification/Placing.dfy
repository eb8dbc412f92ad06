/**
 When the balloons policy can create a balloon and place a container, from what is known beforehand:
 the types, the balloons there are and the number of free CPUs.
 */
module Placing {
  import opened Options
  import opened CpuSets
  import opened Sorting
  import opened Priorities
  import opened BalloonState
  import opened BalloonSteps

  // ---- creating balloons

  /** The type has fewer balloons than it may. */
  ghost predicate MayHaveMore(store: Store, top: seq<Id>, def: Def) {
    def.maxBalloons > 0 ==> |OfDef(store, top, def)| < def.maxBalloons
  }

  lemma MayStillHaveMore(before: Store, after: Store, top: seq<Id>, def: Def)
    requires Extends(before, after) && InStore(before, top)
    ensures MayHaveMore(before, top, def) <==> MayHaveMore(after, top, def)
  {
    ExtendsCounts(before, after, top, {});
  }

  /** Balloons of the named types can be created as far as their numbers go. */
  ghost predicate Creatable(defs: seq<Def>, store: Store, top: seq<Id>, names: seq<string>) {
    forall k :: 0 <= k < |names| ==>
      DefByName(defs, names[k]).Some? && MayHaveMore(store, top, DefByName(defs, names[k]).value)
  }

  /** CPUs that balloons of the named types have when sized for a request each. */
  function NamesTotal(defs: seq<Def>, names: seq<string>, milliCpus: nat): nat {
    if names == [] then 0
    else
      var def := DefByName(defs, names[|names|-1]);
      NamesTotal(defs, names[..|names|-1], milliCpus) + if def.Some? then CpuCount(def.value, milliCpus) else 0
  }

  lemma NamesOneMore(defs: seq<Def>, names: seq<string>, k: nat, milliCpus: nat)
    requires k < |names|
    ensures NamesTotal(defs, names[..k+1], milliCpus) ==
            NamesTotal(defs, names[..k], milliCpus) +
            if DefByName(defs, names[k]).Some? then CpuCount(DefByName(defs, names[k]).value, milliCpus) else 0
  {
    assert names[..k+1][..k] == names[..k];
  }

  lemma {:induction false} NamesTotalGrows(defs: seq<Def>, names: seq<string>, k: nat, m: nat, n: nat)
    requires k <= |names| && m <= n
    ensures NamesTotal(defs, names[..k], m) <= NamesTotal(defs, names, m) <= NamesTotal(defs, names, n)
  {
    if names != [] {
      var init, last := names[..|names|-1], DefByName(defs, names[|names|-1]);
      NamesTotalGrows(defs, init, if k == |names| then k - 1 else k, m, n);
      if last.Some? {
        CpuCountGrows(last.value, m, n);
      }
      if k < |names| {
        assert init[..k] == names[..k];
      } else {
        assert names[..k] == names;
      }
    }
  }

  /** A type's minimum is what a balloon has that is sized for nothing, or for its minimum. */
  lemma MinimumIsForNothing(def: Def)
    ensures CpuCount(def, 0) == CpuCount(def, 1000 * def.minCpus) == def.minCpus
  {
  }

  /** Balloons of the named types add up to what the names do. */
  lemma {:induction false} TypesTotal(defs: seq<Def>, store: Store, ids: seq<Id>, names: seq<string>, milliCpus: nat)
    requires OfTypes(defs, store, ids, names) && |ids| == |names|
    ensures SumTargets(store, ids, milliCpus) == NamesTotal(defs, names, milliCpus)
    ensures EqualSized(store, ids, milliCpus) ==> SumCpus(store, ids) == NamesTotal(defs, names, milliCpus)
  {
    if ids != [] {
      var n := |ids| - 1;
      assert ids[n] in ids && forall i :: i in ids[..n] ==> i in ids;
      TypesTotal(defs, store, ids[..n], names[..n], milliCpus);
    }
  }

  /** New components of the named types have been made, with their minimum of CPUs each. */
  ghost predicate Made(defs: seq<Def>, before: Store, store: Store, components: seq<Id>, names: seq<string>) {
    && Grown(before, store) && NewComponents(before, store, components)
    && EqualSized(store, components, 0) && OfTypes(defs, store, components, names)
  }

  lemma NothingMade(defs: seq<Def>, store: Store, names: seq<string>)
    ensures Made(defs, store, store, [], names) && NamesTotal(defs, names[..0], 0) == 0
  {
  }

  lemma StillMade(defs: seq<Def>, before: Store, middle: Store, after: Store, components: seq<Id>, names: seq<string>)
    requires Made(defs, before, middle, components, names) && Grown(middle, after)
    ensures Made(defs, before, after, components, names)
  {
    GrownTwice(before, middle, after);
    forall i | i in components ensures IsComponent(after, i) {
      assert SameBalloon(middle[i], after[i]);
    }
    StillOfTypes(defs, middle, after, components, names);
    EqualSizedStays(middle, after, components, 0);
  }

  lemma OneMoreMade(defs: seq<Def>, before: Store, middle: Store, after: Store, components: seq<Id>, names: seq<string>, id: Id)
    requires Made(defs, before, middle, components, names) && Grown(middle, after) && |components| < |names|
    requires id !in middle && IsComponent(after, id) && FitsRequest(after, id, 1000 * after[id].def.minCpus)
    requires DefByName(defs, names[|components|]) == Some(after[id].def)
    ensures Made(defs, before, after, components + [id], names)
  {
    hide FitsRequest, DefByName;
    StillMade(defs, before, middle, after, components, names);
    OneMoreComponent(before, middle, after, components, id);
    OneMoreOfType(defs, middle, after, components, names, id);
    OneMoreEqualSized(after, components, id);
  }

  lemma CreatableMore(defs: seq<Def>, store: Store, top: seq<Id>, names: seq<string>, k: nat)
    requires k < |names|
    ensures Creatable(defs, store, top, names[..k+1]) <==>
              Creatable(defs, store, top, names[..k]) && DefByName(defs, names[k]).Some? &&
              MayHaveMore(store, top, DefByName(defs, names[k]).value)
    ensures Creatable(defs, store, top, names) ==> Creatable(defs, store, top, names[..k+1])
  {
    hide MayHaveMore, DefByName;
    assert names[..k+1] == names[..k] + [names[k]];
  }

  /** There are types, numbers and CPUs for a composite balloon of the named components. */
  ghost predicate CanCompose(defs: seq<Def>, store: Store, top: seq<Id>, def: Def, names: seq<string>, free: nat) {
    && (def.balanced ==> forall name :: name in def.components ==> DefByName(defs, name).Some?)
    && Creatable(defs, store, top, names)
    && |names| > 0 && NamesTotal(defs, names, 1000 * def.minCpus / |names|) <= free
  }

  /** A balloon of the type can be created. */
  ghost predicate CanCreate(defs: seq<Def>, store: Store, top: seq<Id>, def: Def, free: nat) {
    && MayHaveMore(store, top, def)
    && if def.components == [] then def.minCpus <= free
       else exists names :: AreComponentNames(store, top, def, names) && CanCompose(defs, store, top, def, names, free)
  }

  lemma NamesAreUnique(store: Store, top: seq<Id>, def: Def, names: seq<string>, names': seq<string>)
    requires AreComponentNames(store, top, def, names) && AreComponentNames(store, top, def, names')
    ensures names == names'
  {
    if def.balanced {
      var k: nat :| IsLeastUsed(store, top, def.components, k) && names == [def.components[k]];
      var l: nat :| IsLeastUsed(store, top, def.components, l) && names' == [def.components[l]];
      assert k == l;
    }
  }

  lemma CanCreateOnlySo(defs: seq<Def>, store: Store, top: seq<Id>, def: Def, names: seq<string>, free: nat)
    requires AreComponentNames(store, top, def, names) && def.components != []
    ensures CanCreate(defs, store, top, def, free) <==>
              MayHaveMore(store, top, def) && CanCompose(defs, store, top, def, names, free)
  {
    hide AreComponentNames, CanCompose, MayHaveMore;
    if CanCreate(defs, store, top, def, free) {
      var names' :| AreComponentNames(store, top, def, names') && CanCompose(defs, store, top, def, names', free);
      NamesAreUnique(store, top, def, names, names');
    }
  }

  // ---- room in a new balloon

  /** The least that a component of the named types could grow to, sized for a request each. */
  function LeastRoom(defs: seq<Def>, names: seq<string>, milliCpus: nat, avail: nat): nat {
    if names == [] || DefByName(defs, names[0]).None? then 0
    else
      var def := DefByName(defs, names[0]).value;
      var first := GrowTo(def, CpuCount(def, milliCpus), avail);
      if |names| == 1 then first else Min(first, LeastRoom(defs, names[1..], milliCpus, avail))
  }

  lemma {:induction false} LeastRoomIs(defs: seq<Def>, store: Store, ids: seq<Id>, names: seq<string>, milliCpus: nat, avail: nat)
    requires OfTypes(defs, store, ids, names) && |ids| == |names| && EqualSized(store, ids, milliCpus)
    ensures LeastGrowable(store, ids, avail) == LeastRoom(defs, names, milliCpus, avail)
  {
    if ids != [] {
      assert ids[0] in ids && forall i :: i in ids[1..] ==> i in ids;
      LeastRoomIs(defs, store, ids[1..], names[1..], milliCpus, avail);
    }
  }

  /** The request each component is sized for when a balloon is created. */
  function Share(def: Def, names: seq<string>): nat
    requires names != []
  {
    1000 * def.minCpus / |names|
  }

  /** How much CPU time a new composite balloon could provide when so many CPUs are free before. */
  function CompositeRoom(defs: seq<Def>, def: Def, names: seq<string>, free: nat): nat
    requires names != [] && NamesTotal(defs, names, Share(def, names)) <= free
  {
    var total := NamesTotal(defs, names, Share(def, names));
    GrowTo(def, total, Min(LeastRoom(defs, names, Share(def, names), free - total) * |names| / 1000, free - total))
  }

  /** A new balloon of the type has CPUs. */
  ghost predicate StartsWithCpus(defs: seq<Def>, store: Store, top: seq<Id>, def: Def) {
    if def.components == [] then def.minCpus > 0
    else exists names :: AreComponentNames(store, top, def, names) && names != [] && NamesTotal(defs, names, Share(def, names)) > 0
  }

  /** A new balloon of the type could provide the CPU time. */
  ghost predicate CanHold(defs: seq<Def>, store: Store, top: seq<Id>, def: Def, milliCpus: nat, free: nat) {
    if def.components == [] then def.minCpus <= free && GrowTo(def, def.minCpus, free - def.minCpus) >= milliCpus
    else exists names :: AreComponentNames(store, top, def, names) && names != [] &&
                         NamesTotal(defs, names, Share(def, names)) <= free && CompositeRoom(defs, def, names, free) >= milliCpus
  }

  lemma HoldsOnlySo(defs: seq<Def>, store: Store, top: seq<Id>, def: Def, names: seq<string>, milliCpus: nat, free: nat)
    requires AreComponentNames(store, top, def, names) && def.components != [] && names != []
    requires NamesTotal(defs, names, Share(def, names)) <= free
    ensures CanHold(defs, store, top, def, milliCpus, free) <==> CompositeRoom(defs, def, names, free) >= milliCpus
    ensures StartsWithCpus(defs, store, top, def) <==> NamesTotal(defs, names, Share(def, names)) > 0
  {
    hide AreComponentNames, NamesTotal, CompositeRoom;
    if CanHold(defs, store, top, def, milliCpus, free) {
      var names' :| AreComponentNames(store, top, def, names') && names' != [] &&
                    NamesTotal(defs, names', Share(def, names')) <= free && CompositeRoom(defs, def, names', free) >= milliCpus;
      NamesAreUnique(store, top, def, names, names');
    }
    if StartsWithCpus(defs, store, top, def) {
      var names' :| AreComponentNames(store, top, def, names') && names' != [] && NamesTotal(defs, names', Share(def, names')) > 0;
      NamesAreUnique(store, top, def, names, names');
    }
  }

  /** CPUs of disjoint balloons are as many as they have together. */
  lemma {:induction false} UnionSum(store: Store, ids: seq<Id>, cpus: CpuSet)
    requires Distinct(ids) && IsUnion(store, Elements(ids), cpus) && forall i :: i in ids ==> i in store
    requires forall i, j :: i in ids && j in ids && i != j ==> store[i].cpus !! store[j].cpus
    ensures |cpus| == SumCpus(store, ids)
  {
    if ids == [] {
      if cpus != {} {
        var c := Pick(cpus);
      }
    } else {
      hide IsUnion, Elements, Distinct;
      var init, last := ids[..|ids|-1], ids[|ids|-1];
      DistinctInit(ids);
      UnionWithout(store, init, last, cpus);
      var rest := cpus - store[last].cpus;
      UnionSum(store, init, rest);
      DisjointUnionSize(rest, store[last].cpus);
      assert cpus == rest + store[last].cpus;
    }
  }

  /** What a new composite balloon could provide is known before. */
  lemma NewCompositeRoom(defs: seq<Def>, store: Store, id: Id, names: seq<string>, managed: CpuSet, free: CpuSet, leaves: set<Id>)
    requires id in store && FitsRequest(store, id, 1000 * store[id].def.minCpus)
    requires !store[id].Plain() && ComponentsArePlain(store, store[id])
    requires Partition(managed, free, store, leaves) && Elements(store[id].components) <= leaves
    requires OfTypes(defs, store, store[id].components, names) && |store[id].components| == |names|
    ensures |store[id].cpus| == NamesTotal(defs, names, Share(store[id].def, names))
    ensures MaxAvail(store, store[id], free) == CompositeRoom(defs, store[id].def, names, |free| + |store[id].cpus|)
  {
    hide NamesTotal, LeastRoom, LeastGrowable, SumCpus, SumTargets;
    var b := store[id];
    var share := Share(b.def, names);
    assert EqualSized(store, b.components, share);
    forall i | i in b.components ensures i in Elements(b.components) {
    }
    UnionSum(store, b.components, b.cpus);
    TypesTotal(defs, store, b.components, names, share);
    LeastRoomIs(defs, store, b.components, names, share, |free|);
  }

  /** So is what it can be resized for. */
  lemma NewCompositeCpus(defs: seq<Def>, store: Store, id: Id, names: seq<string>, free: nat, milliCpus: nat)
    requires id in store && FitsRequest(store, id, 1000 * store[id].def.minCpus) && !store[id].Plain()
    requires OfTypes(defs, store, store[id].components, names) && |store[id].components| == |names|
    requires |store[id].cpus| == NamesTotal(defs, names, Share(store[id].def, names))
    ensures CanResize(store, id, milliCpus, free) <==> NamesTotal(defs, names, milliCpus / |names|) <= |store[id].cpus| + free
  {
    hide NamesTotal, SumCpus, SumTargets, IsUnion;
    var b := store[id];
    assert EqualSized(store, b.components, Share(b.def, names));
    TypesTotal(defs, store, b.components, names, Share(b.def, names));
    TypesTotal(defs, store, b.components, names, milliCpus / |names|);
  }

  /** The type has a balloon without containers. */
  ghost predicate HasEmpty(store: Store, top: seq<Id>, def: Def) {
    exists t :: t in top && t in store && store[t].def == def && store[t].containers == []
  }

  /** A balloon that can hold the request can be created. */
  ghost predicate CanAdd(defs: seq<Def>, store: Store, top: seq<Id>, def: Def, milliCpus: nat, free: nat) {
    && free > 0 && free >= def.minCpus
    && CanCreate(defs, store, top, def, free) && CanHold(defs, store, top, def, milliCpus, free)
  }

  /** A balloon has the CPU time, or there are CPUs to give it. */
  ghost predicate HasCpus(store: Store, id: Id, milliCpus: nat, free: nat) {
    id in store && (store[id].AvailMilliCpus() >= milliCpus || CanResize(store, id, milliCpus, free))
  }

  // ---- which fill method applies

  /** What decides where a container goes. */
  datatype Scene = Scene(defs: seq<Def>, cache: Cache, store: Store, top: seq<Id>, free: CpuSet) {
    /** The room of a balloon, as it is or when inflated. */
    function Room(inflate: bool, t: Id): int
      requires t in store
    {
      if inflate then MaxFreeMilli(cache, store, store[t], free) else FreeMilli(cache, store[t])
    }

    /** A balloon has less room than another one, or as much and at least as many containers. */
    ghost predicate Below(inflate: bool, t: Id, best: Id)
      requires t in store && best in store
    {
      Room(inflate, t) < Room(inflate, best) ||
      (Room(inflate, t) == Room(inflate, best) && |store[best].containers| <= |store[t].containers|)
    }

    ghost predicate Suit(def: Def, fill: FillMethod, near: Relatives, milliCpus: nat, t: Id) {
      t in top && t in store && Suits(cache, store, free, def, fill, near, milliCpus, t)
    }

    /** The method suggests a balloon. */
    ghost predicate Applies(def: Def, fill: FillMethod, near: Relatives, milliCpus: nat, classApplies: bool) {
      if fill == FillNewBalloon then
        || HasEmpty(store, top, def)
        || (CanAdd(defs, store, top, def, milliCpus, |free|) && (StartsWithCpus(defs, store, top, def) ==> classApplies))
      else exists t :: Suit(def, fill, near, milliCpus, t)
    }

    /** The method ends the search: the pod is not known, or the CPU class of a new balloon cannot be applied. */
    ghost predicate Stops(def: Def, fill: FillMethod, near: Relatives, milliCpus: nat, classApplies: bool) {
      || (fill == SamePod && near.pod.None?)
      || (fill == FillNewBalloon && !HasEmpty(store, top, def) && CanAdd(defs, store, top, def, milliCpus, |free|) &&
          StartsWithCpus(defs, store, top, def) && !classApplies)
    }

    /** The first method of the chain that suggests a balloon or ends the search, if there is one. */
    ghost predicate IsFirst(def: Def, near: Relatives, milliCpus: nat, classApplies: bool, k: nat) {
      && k <= |FillChain(def)|
      && (forall j :: 0 <= j < k ==>
            !Applies(def, FillChain(def)[j], near, milliCpus, classApplies) && !Stops(def, FillChain(def)[j], near, milliCpus, classApplies))
      && (k < |FillChain(def)| ==>
            Applies(def, FillChain(def)[k], near, milliCpus, classApplies) || Stops(def, FillChain(def)[k], near, milliCpus, classApplies))
    }

    /** The method suggests this balloon, an empty one or one that suits, and none that is better. */
    ghost predicate Suggests(def: Def, fill: FillMethod, near: Relatives, milliCpus: nat, best: Id) {
      && Suit(def, fill, near, milliCpus, best)
      && (fill != FillNewBalloon ==>
            forall t :: Suit(def, fill, near, milliCpus, t) ==> Below(fill == BalancedInflate, t, best))
    }

    /** A new balloon of the type would have. */
    ghost predicate NewHasCpus(def: Def, milliCpus: nat) {
      if def.components == [] then 1000 * def.minCpus >= milliCpus || CpuCount(def, milliCpus) <= |free|
      else exists names :: AreComponentNames(store, top, def, names) && names != [] && NewServes(def, names, milliCpus)
    }

    ghost predicate NewServes(def: Def, names: seq<string>, milliCpus: nat)
      requires names != []
    {
      || 1000 * NamesTotal(defs, names, Share(def, names)) >= milliCpus
      || NamesTotal(defs, names, milliCpus / |names|) <= |free|
    }
  }

  // ---- what is added to the store and never listed makes no difference

  lemma {:induction false} CountNamedStays(before: Store, after: Store, ids: seq<Id>, name: string)
    requires Extends(before, after) && forall i :: i in ids ==> i in before
    ensures CountNamed(after, ids, name) == CountNamed(before, ids, name)
  {
    if ids != [] {
      assert ids[0] in ids && SameBalloon(before[ids[0]], after[ids[0]]);
      CountNamedStays(before, after, ids[1..], name);
    }
  }

  lemma {:induction false} InstancesStay(before: Store, after: Store, top: seq<Id>, name: string)
    requires Extends(before, after) && forall t :: t in top ==> t in before && ComponentsArePlain(before, before[t])
    ensures Instances(after, top, name) == Instances(before, top, name)
  {
    if top != [] {
      var t := top[0];
      assert t in top && SameBalloon(before[t], after[t]) && ComponentsArePlain(before, before[t]);
      var ids := [t] + before[t].components;
      forall i | i in ids ensures i in before {
        if i != t {
          var k :| 0 <= k < |before[t].components| && before[t].components[k] == i;
          assert IsComponent(before, before[t].components[k]);
        }
      }
      CountNamedStays(before, after, ids, name);
      InstancesStay(before, after, top[1..], name);
    }
  }

  lemma NamesStay(before: Store, after: Store, top: seq<Id>, def: Def, names: seq<string>)
    requires Extends(before, after) && Structure(before, top)
    ensures AreComponentNames(after, top, def, names) <==> AreComponentNames(before, top, def, names)
  {
    forall name ensures Instances(after, top, name) == Instances(before, top, name) {
      InstancesStay(before, after, top, name);
    }
    if def.balanced {
      forall k: nat ensures IsLeastUsed(after, top, def.components, k) <==> IsLeastUsed(before, top, def.components, k) {
      }
    }
  }

  lemma CanCreateStays(defs: seq<Def>, before: Store, after: Store, top: seq<Id>, def: Def, free: nat)
    requires Extends(before, after) && Structure(before, top)
    ensures CanCreate(defs, after, top, def, free) <==> CanCreate(defs, before, top, def, free)
  {
    hide AreComponentNames, NamesTotal, MayHaveMore, Structure, DefByName;
    StructureIsListed(before, top);
    forall names ensures AreComponentNames(after, top, def, names) <==> AreComponentNames(before, top, def, names) {
      NamesStay(before, after, top, def, names);
    }
    forall d ensures MayHaveMore(after, top, d) <==> MayHaveMore(before, top, d) {
      MayStillHaveMore(before, after, top, d);
    }
    forall names ensures Creatable(defs, after, top, names) <==> Creatable(defs, before, top, names) {
    }
  }

  lemma CanAddStays(defs: seq<Def>, before: Store, after: Store, top: seq<Id>, def: Def, milliCpus: nat, free: nat)
    requires Extends(before, after) && Structure(before, top)
    ensures CanAdd(defs, after, top, def, milliCpus, free) <==> CanAdd(defs, before, top, def, milliCpus, free)
    ensures StartsWithCpus(defs, after, top, def) <==> StartsWithCpus(defs, before, top, def)
  {
    hide AreComponentNames, NamesTotal, CompositeRoom, MayHaveMore, Structure, DefByName;
    StructureIsListed(before, top);
    forall names ensures AreComponentNames(after, top, def, names) <==> AreComponentNames(before, top, def, names) {
      NamesStay(before, after, top, def, names);
    }
    forall d ensures MayHaveMore(after, top, d) <==> MayHaveMore(before, top, d) {
      MayStillHaveMore(before, after, top, d);
    }
    forall names ensures Creatable(defs, after, top, names) <==> Creatable(defs, before, top, names) {
    }
  }

  lemma SuitStays(w: Scene, after: Store, def: Def, fill: FillMethod, near: Relatives, milliCpus: nat, t: Id)
    requires Grown(w.store, after) && Structure(w.store, w.top)
    ensures w.(store := after).Suit(def, fill, near, milliCpus, t) <==> w.Suit(def, fill, near, milliCpus, t)
    ensures t in w.top ==> t in w.store && forall inflate :: w.(store := after).Room(inflate, t) == w.Room(inflate, t)
    ensures t in w.top ==> after[t].containers == w.store[t].containers
  {
    if t in w.top {
      assert ComponentsArePlain(w.store, w.store[t]) && SameBalloon(w.store[t], after[t]);
      SuitsSame(w.cache, w.store, after, w.free, def, fill, near, milliCpus, t);
      MaxAvailStays(w.store, after, t, w.free);
    }
  }

  lemma MethodsStay(w: Scene, after: Store, def: Def, fill: FillMethod, near: Relatives, milliCpus: nat, classApplies: bool)
    requires Grown(w.store, after) && Structure(w.store, w.top)
    ensures var w' := w.(store := after);
            && (w'.Applies(def, fill, near, milliCpus, classApplies) <==> w.Applies(def, fill, near, milliCpus, classApplies))
            && (w'.Stops(def, fill, near, milliCpus, classApplies) <==> w.Stops(def, fill, near, milliCpus, classApplies))
            && (HasEmpty(w'.store, w'.top, def) <==> HasEmpty(w.store, w.top, def))
  {
    hide Scene.Suit, CanAdd, StartsWithCpus, Structure;
    var w' := w.(store := after);
    CanAddStays(w.defs, w.store, after, w.top, def, milliCpus, |w.free|);
    forall t ensures w'.Suit(def, fill, near, milliCpus, t) <==> w.Suit(def, fill, near, milliCpus, t) {
      SuitStays(w, after, def, fill, near, milliCpus, t);
    }
    EmptyStays(w.store, after, w.top, def);
  }

  lemma EmptyStays(before: Store, after: Store, top: seq<Id>, def: Def)
    requires Extends(before, after) && Structure(before, top)
    ensures HasEmpty(after, top, def) <==> HasEmpty(before, top, def)
  {
    forall t | t in top ensures t in before && after[t].def == before[t].def && after[t].containers == before[t].containers {
      assert SameBalloon(before[t], after[t]);
    }
  }

  lemma SuggestsStays(w: Scene, after: Store, def: Def, fill: FillMethod, near: Relatives, milliCpus: nat, best: Id)
    requires Grown(w.store, after) && Structure(w.store, w.top)
    ensures w.(store := after).Suggests(def, fill, near, milliCpus, best) <==> w.Suggests(def, fill, near, milliCpus, best)
  {
    hide Structure, Suits, Scene.Room;
    var w' := w.(store := after);
    forall t
      ensures w'.Suit(def, fill, near, milliCpus, t) <==> w.Suit(def, fill, near, milliCpus, t)
      ensures t in w.top ==> t in w.store && w'.Room(fill == BalancedInflate, t) == w.Room(fill == BalancedInflate, t)
      ensures t in w.top ==> after[t].containers == w.store[t].containers
    {
      SuitStays(w, after, def, fill, near, milliCpus, t);
    }
  }

  lemma NewHasCpusStays(w: Scene, after: Store, def: Def, milliCpus: nat)
    requires Extends(w.store, after) && Structure(w.store, w.top)
    ensures w.(store := after).NewHasCpus(def, milliCpus) <==> w.NewHasCpus(def, milliCpus)
  {
    hide AreComponentNames, NamesTotal, Structure;
    forall names ensures AreComponentNames(after, w.top, def, names) <==> AreComponentNames(w.store, w.top, def, names) {
      NamesStay(w.store, after, w.top, def, names);
    }
    forall names | names != []
      ensures w.(store := after).NewServes(def, names, milliCpus) <==> w.NewServes(def, names, milliCpus) {
    }
  }

  lemma HasCpusStays(before: Store, after: Store, id: Id, milliCpus: nat, free: nat)
    requires Grown(before, after) && id in before && forall i :: i in before[id].components ==> i in before
    ensures HasCpus(after, id, milliCpus, free) <==> HasCpus(before, id, milliCpus, free)
  {
    var components := before[id].components;
    assert SameBalloon(before[id], after[id]);
    if components != [] {
      SumsStay(before, after, components, milliCpus / |components|);
    }
  }

  /** The balloon was suggested before, and nothing but unlisted balloons has been added. Or it is new. */
  ghost predicate ChosenIn(before: Scene, def: Def, fill: FillMethod, near: Relatives, milliCpus: nat, best: Id,
                           store: Store, free: CpuSet) {
    && best in store
    && if fill != FillNewBalloon || HasEmpty(before.store, before.top, def)
       then before.Suggests(def, fill, near, milliCpus, best) && Grown(before.store, store) && free == before.free
       else
         && store[best].containers == [] && best !in before.top
         && forall m: nat :: HasCpus(store, best, m, |free|) <==> before.NewHasCpus(def, m)
  }

  // ---- placing a container

  /** What becomes of a container of the type, by the k-th fill method. */
  ghost predicate IsOutcome(w: Scene, r: Placement, def: Def, near: Relatives, c: Ctr, classApplies: bool, k: nat) {
    && var m := Request(w.cache, c);
    && w.IsFirst(def, near, m, classApplies, k)
    && if k == |FillChain(def)| then r == Failed(NoBalloon)
       else
         var fill := FillChain(def)[k];
         if w.Stops(def, fill, near, m, classApplies) then r == Failed(if fill == SamePod then PodUnknown else ClassRefused)
         else if fill != FillNewBalloon || HasEmpty(w.store, w.top, def) then
           (r.Placed? || (r.Failed? && r.why.NoCpus?)) &&
           var best := if r.Placed? then r.id else r.why.id;
           && w.Suggests(def, fill, near, m, best)
           && (r.Placed? <==> HasCpus(w.store, best, Demand(w.cache, w.store[best].containers + [c]), |w.free|))
         else (r.Placed? || (r.Failed? && r.why.NoCpus?)) && (r.Placed? <==> w.NewHasCpus(def, Max(1, m)))
  }

  /**
   A plain balloon that a fill method suggests for its room has CPUs for the container, or there are CPUs to
   give it, unless there are no CPUs at all and nothing is requested of them.
   */
  lemma SuitedHasCpusIff(w: Scene, def: Def, fill: FillMethod, near: Relatives, c: Ctr, best: Id)
    requires w.Suit(def, fill, near, Request(w.cache, c), best) && fill != FillNewBalloon
    requires w.store[best].Plain() && WithinLimits(w.store[best])
    ensures HasCpus(w.store, best, Demand(w.cache, w.store[best].containers + [c]), |w.free|) <==>
              w.store[best].cpus != {} || w.free != {}
  {
    var b := w.store[best];
    RequestedOneMore(w.cache, b.containers, c);
    var demand := Demand(w.cache, b.containers + [c]);
    assert b.cpus != {} ==> |b.cpus| > 0;
    assert w.free != {} ==> |w.free| > 0;
    CpuCountWithinLimits(b.def, demand);
  }

  /** The method of inflating balloons is in every chain, and only methods for balloons there are come before it by default. */
  lemma InflateIsTried(def: Def) returns (j: nat)
    ensures j < |FillChain(def)| && FillChain(def)[j] == BalancedInflate
    ensures !def.preferNew && !def.perNamespace ==> forall i :: 0 <= i <= j ==> FillChain(def)[i] != FillNewBalloon
    ensures def.spreadPods ==> forall i :: 0 <= i < |FillChain(def)| ==> FillChain(def)[i] != SamePod
  {
    var chain := FillChain(def);
    j := if def.preferNew then |chain| - 1 else |chain| - 2;
  }

  /**
   With room for it in a balloon of its type, a container is placed. That is for a plain type whose fill methods try
   balloons there are first, and pods that are known if they matter, unless balloons may be without CPUs when none is free.
   */
  lemma RoomMeansPlaced(w: Scene, r: Placement, def: Def, near: Relatives, c: Ctr, classApplies: bool, k: nat, t: Id)
    requires IsOutcome(w, r, def, near, c, classApplies, k) && !def.preferNew && !def.perNamespace
    requires near.pod.Some? || def.spreadPods
    requires forall u :: u in w.top && u in w.store && w.store[u].def == def ==> w.store[u].Plain() && WithinLimits(w.store[u])
    requires w.free != {} || forall u :: u in w.top && u in w.store && w.store[u].def == def ==> w.store[u].cpus != {}
    requires t in w.top && t in w.store && w.store[t].def == def
    requires MaxFreeMilli(w.cache, w.store, w.store[t], w.free) >= Request(w.cache, c)
    ensures r.Placed?
  {
    var m := Request(w.cache, c);
    var j := InflateIsTried(def);
    assert w.Suit(def, FillChain(def)[j], near, m, t);
    assert w.Applies(def, FillChain(def)[j], near, m, classApplies);
    assert k <= j;
    var fill := FillChain(def)[k];
    assert !w.Stops(def, fill, near, m, classApplies);
    var best := if r.Placed? then r.id else r.why.id;
    assert w.Suggests(def, fill, near, m, best);
    SuitedHasCpusIff(w, def, fill, near, c, best);
  }

  /** The exception: a balloon without CPUs, none free, and a container that requests nothing. */
  lemma BestEffortNeedsCpu(w: Scene, def: Def, near: Relatives, c: Ctr, best: Id)
    requires w.Suggests(def, Balanced, near, 0, best) && Request(w.cache, c) == 0
    requires w.store[best].Plain() && WithinLimits(w.store[best]) && w.store[best].cpus == {} && w.free == {}
    ensures !HasCpus(w.store, best, Demand(w.cache, w.store[best].containers + [c]), |w.free|)
  {
    SuitedHasCpusIff(w, def, Balanced, near, c, best);
  }

  /** When no fill method applies, no balloon of the type has room for the container, even if inflated, and none can be added. */
  lemma FailureMeansNoRoom(w: Scene, def: Def, near: Relatives, c: Ctr, classApplies: bool, k: nat, t: Id)
    requires IsOutcome(w, Failed(NoBalloon), def, near, c, classApplies, k)
    ensures t in w.top && t in w.store && w.store[t].def == def ==>
              MaxFreeMilli(w.cache, w.store, w.store[t], w.free) < Request(w.cache, c) && w.store[t].containers != []
    ensures !CanAdd(w.defs, w.store, w.top, def, Request(w.cache, c), |w.free|)
  {
    hide CanAdd, StartsWithCpus;
    var m := Request(w.cache, c);
    assert k == |FillChain(def)|;
    var j := InflateIsTried(def);
    assert !w.Applies(def, FillChain(def)[j], near, m, classApplies);
    var i := NewIsTried(def);
    assert !w.Applies(def, FillChain(def)[i], near, m, classApplies) && !w.Stops(def, FillChain(def)[i], near, m, classApplies);
    if t in w.top && t in w.store && w.store[t].def == def {
      assert !w.Suit(def, BalancedInflate, near, m, t);
    }
  }

  lemma NewIsTried(def: Def) returns (i: nat)
    ensures i < |FillChain(def)| && FillChain(def)[i] == FillNewBalloon
  {
    i := if def.preferNew then |FillChain(def)| - 3 else |FillChain(def)| - 1;
  }

  // ---- requests as steps

  /** A container is released: nothing changes if it is in no balloon, else it leaves one, which is resized. */
  ghost predicate ReleaseStep(treeOk: bool, w: Scene, w': Scene, c: Ctr) {
    && w'.defs == w.defs && w'.cache == w.cache
    && if !IsAssigned(w.store, w.top, c) then w' == w
       else exists id, resized :: ReleasedFrom(treeOk, w, w', c, id, resized)
  }

  ghost predicate ReleasedFrom(treeOk: bool, w: Scene, w': Scene, c: Ctr, id: Id, resized: bool) {
    && DismissedOnly(w.store, w'.store, w.top, w'.top, id, c) && Released(w.cache, w'.store, id, resized)
    && (treeOk ==> ResizedIff(w.cache, w.store, w'.store, id, |w.free|, resized))
  }

  /** A container is to be placed: it is, or it is not and no balloon's containers change. */
  ghost predicate AllocateStep(treeOk: bool, w: Scene, w': Scene, o: Order) {
    w'.defs == w.defs && w'.cache == w.cache && exists r, k :: Allocated(treeOk, w, w', o, r, k)
  }

  ghost predicate Allocated(treeOk: bool, w: Scene, w': Scene, o: Order, r: Placement, k: nat) {
    && w.top <= w'.top && (o.preserve <==> r.Preserved?) && (!o.preserve && o.def.None? <==> r == Failed(NoType))
    && (r.Preserved? || r == Failed(NoType) ==> w' == w)
    && (!r.Placed? ==> Extends(w.store, w'.store)) && NewHoldOnly(w'.store, w.top, w'.top, r.Placed?, o.c)
    && (r.Placed? ==> PlacedOnly(w.store, w'.store, w.top, r.id, o.c) && r.id in w'.top && o.def == Some(w'.store[r.id].def))
    && (treeOk && !o.preserve && o.def.Some? ==> IsOutcome(w, r, o.def.value, o.near, o.c, o.classApplies, k))
  }

  // ---- initial balloons

  const PRIORITIES := [HIGH, NORMAL, LOW, NONE]

  function OfPriority(types: seq<Def>, priority: CpuPriority): seq<Def> {
    if types == [] then []
    else OfPriority(types[..|types|-1], priority) + if types[|types|-1].priority == priority then [types[|types|-1]] else []
  }

  /** Types of the first k priorities, priority by priority. */
  function OfFirst(types: seq<Def>, k: nat): seq<Def>
    requires k <= 4
  {
    if k == 0 then [] else OfFirst(types, k - 1) + OfPriority(types, PRIORITIES[k-1])
  }

  /** Types in the order in which their initial balloons are created. */
  function ByPriority(types: seq<Def>): seq<Def> {
    OfFirst(types, 4)
  }

  lemma OfPriorityStep(types: seq<Def>, priority: CpuPriority, i: nat)
    requires i < |types|
    ensures OfPriority(types[..i+1], priority) ==
            OfPriority(types[..i], priority) + if types[i].priority == priority then [types[i]] else []
  {
    assert types[..i+1][..i] == types[..i];
  }

  lemma {:induction false} OfPriorityPrefix(types: seq<Def>, priority: CpuPriority, i: nat)
    requires i <= |types|
    ensures OfPriority(types[..i], priority) <= OfPriority(types, priority)
  {
    if i < |types| {
      OfPriorityPrefix(types[..|types|-1], priority, i);
      assert types[..|types|-1][..i] == types[..i];
    } else {
      assert types[..i] == types;
    }
  }

  lemma {:induction false} OfFirstPrefix(types: seq<Def>, k: nat, l: nat)
    requires k <= l <= 4
    ensures OfFirst(types, k) <= OfFirst(types, l)
  {
    if k < l {
      OfFirstPrefix(types, k, l - 1);
    }
  }

  /** What has been done after some priorities and some types of the next one is the beginning of the whole order. */
  lemma DoneIsPrefix(types: seq<Def>, k: nat, i: nat)
    requires k < 4 && i <= |types|
    ensures OfFirst(types, k) + OfPriority(types[..i], PRIORITIES[k]) <= ByPriority(types)
  {
    OfPriorityPrefix(types, PRIORITIES[k], i);
    OfFirstPrefix(types, k + 1, 4);
  }

  lemma {:induction false} OfPriorityMembers(types: seq<Def>, priority: CpuPriority)
    ensures forall d :: d in OfPriority(types, priority) <==> d in types && d.priority == priority
  {
    if types != [] {
      var init, last := types[..|types|-1], types[|types|-1];
      assert types == init + [last];
      OfPriorityMembers(init, priority);
    }
  }

  lemma ByPriorityMembers(types: seq<Def>)
    ensures forall d :: d in ByPriority(types) <==> d in types
  {
    forall p ensures forall d :: d in OfPriority(types, p) <==> d in types && d.priority == p {
      OfPriorityMembers(types, p);
    }
    assert OfFirst(types, 1) == OfFirst(types, 0) + OfPriority(types, HIGH);
    assert OfFirst(types, 2) == OfFirst(types, 1) + OfPriority(types, NORMAL);
    assert OfFirst(types, 3) == OfFirst(types, 2) + OfPriority(types, LOW);
    assert OfFirst(types, 4) == OfFirst(types, 3) + OfPriority(types, NONE);
    forall d: Def ensures d.priority == HIGH || d.priority == NORMAL || d.priority == LOW || d.priority == NONE {
    }
  }

  /** CPUs that the initial balloons of plain types need. */
  function MinTotal(types: seq<Def>): nat {
    if types == [] then 0
    else MinTotal(types[..|types|-1]) + types[|types|-1].minBalloons * types[|types|-1].minCpus
  }

  lemma MinOneMore(types: seq<Def>, d: Def)
    ensures MinTotal(types + [d]) == MinTotal(types) + d.minBalloons * d.minCpus
  {
    assert (types + [d])[..|types|] == types;
  }

  lemma {:induction false} MinConcat(a: seq<Def>, b: seq<Def>)
    ensures MinTotal(a + b) == MinTotal(a) + MinTotal(b)
  {
    if b == [] {
      assert a + b == a;
    } else {
      var init, last := b[..|b|-1], b[|b|-1];
      assert a + b == a + init + [last] && b == init + [last];
      MinConcat(a, init);
      MinOneMore(a + init, last);
      MinOneMore(init, last);
    }
  }

  lemma MinPrefix(a: seq<Def>, b: seq<Def>)
    requires a <= b
    ensures MinTotal(a) <= MinTotal(b)
  {
    MinConcat(a, b[|a|..]);
    assert b == a + b[|a|..];
  }

  lemma {:induction false} MinByPriority(types: seq<Def>)
    ensures MinTotal(ByPriority(types)) == MinTotal(types)
  {
    FourSums(types);
    if types != [] {
      var init, last := types[..|types|-1], types[|types|-1];
      MinByPriority(init);
      FourSums(init);
      forall p ensures MinTotal(OfPriority(types, p)) ==
                       MinTotal(OfPriority(init, p)) + if last.priority == p then last.minBalloons * last.minCpus else 0 {
        if last.priority == p {
          MinOneMore(OfPriority(init, p), last);
        } else {
          assert OfPriority(init, p) + [] == OfPriority(init, p);
        }
      }
      assert last.priority == HIGH || last.priority == NORMAL || last.priority == LOW || last.priority == NONE;
    }
  }

  lemma FourSums(types: seq<Def>)
    ensures MinTotal(ByPriority(types)) == MinTotal(OfPriority(types, HIGH)) + MinTotal(OfPriority(types, NORMAL)) +
                                           MinTotal(OfPriority(types, LOW)) + MinTotal(OfPriority(types, NONE))
  {
    assert OfFirst(types, 1) == [] + OfPriority(types, HIGH) == OfPriority(types, HIGH);
    MinConcat(OfFirst(types, 1), OfPriority(types, NORMAL));
    MinConcat(OfFirst(types, 2), OfPriority(types, LOW));
    MinConcat(OfFirst(types, 3), OfPriority(types, NONE));
  }

  /** All listed balloons are of the given types. */
  ghost predicate AllOf(store: Store, top: seq<Id>, types: set<Def>) {
    forall t :: t in top && t in store ==> store[t].def in types
  }

  lemma NoneOf(store: Store, top: seq<Id>, types: set<Def>, d: Def)
    requires AllOf(store, top, types) && d !in types
    ensures OfDef(store, top, d) == {}
  {
  }

  lemma {:induction false} DistinctOfPriority(types: seq<Def>, priority: CpuPriority)
    requires Distinct(types)
    ensures Distinct(OfPriority(types, priority))
  {
    if types != [] {
      var init, last := types[..|types|-1], types[|types|-1];
      DistinctOfPriority(init, priority);
      OfPriorityMembers(init, priority);
      assert last !in init;
    }
  }

  lemma {:induction false} DistinctOfFirst(types: seq<Def>, k: nat)
    requires Distinct(types) && k <= 4
    ensures Distinct(OfFirst(types, k)) && forall d :: d in OfFirst(types, k) ==> d.priority < k
  {
    if k > 0 {
      DistinctOfFirst(types, k - 1);
      DistinctOfPriority(types, PRIORITIES[k-1]);
      OfPriorityMembers(types, PRIORITIES[k-1]);
      assert PRIORITIES[k-1] == k - 1;
      var a, b := OfFirst(types, k - 1), OfPriority(types, PRIORITIES[k-1]);
      forall i, j | 0 <= i < |a| && 0 <= j < |b| ensures a[i] != b[j] {
        assert a[i] in a && b[j] in b;
      }
    }
  }

  lemma WellConfiguredIsDistinct(types: seq<Def>)
    requires WellConfigured(types)
    ensures Distinct(ByPriority(types))
  {
    DistinctOfFirst(types, 4);
  }
}

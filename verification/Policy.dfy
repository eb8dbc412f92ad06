/**
 The balloons policy (cmd/plugins/balloons/policy/balloons-policy.go): creating, resizing, undoing
 and deleting balloons, sharing idle CPUs, and assigning and pinning containers.
 */
module Policy {
  import opened Options
  import opened CpuSets
  import opened Sorting
  import opened Priorities
  import opened Topology
  import opened Sysfs
  import opened BalloonState
  import opened BalloonSteps
  import opened Placing
  import CpuTree
  import Stages
  import CpuAlloc = Allocator

  class Balloons {
    const topo: Topo                    // for choosing CPUs
    const nodes: seq<CpuTree.Node>      // nodes of the topology tree
    ghost const height: nat             // depth of its leaves
    const levels: map<int, seq<CpuSet>> // the same, by topology level
    const system: Cpus                  // for telling threads of a core
    const isolated: CpuSet              // CPUs isolated by the kernel
    const pinCpu: bool                  // whether containers are pinned at all

    var cache: Cache                    // containers known to the resource manager
    var pins: map<Ctr, CpuSet>          // CPUs they are pinned to

    var allowed: CpuSet                 // CPUs the policy may use
    var freeCpus: CpuSet                // CPUs in no balloon
    var defs: seq<Def>                  // balloon types
    var store: Store                    // all balloons, also components and unlisted ones
    var balloons: seq<Id>               // listed balloons
    var next: nat                       // no balloon in the store has this number or a larger one

    ghost var managed: CpuSet           // CPUs allowed by the configuration in effect
    ghost var applied: set<Def>         // types whose initial balloons have been created
    ghost var undisturbed: bool         // no undone resize has left balloons sharing CPUs taken back since
    ghost var placedOnce: bool          // no container has been placed while it was in a balloon

    ghost predicate SystemOk()
      reads this
    {
      topo.WellFormed() && managed <= topo.Usable() && CoresAgree(system, managed)
    }

    /** The topology tree has a leaf for each CPU that can be used. */
    ghost predicate TreeOk() {
      CpuTree.IsTree(nodes, height, topo.Usable())
    }

    ghost predicate Fresh()
      reads this
    {
      forall i :: i in store ==> i.n < next
    }

    ghost predicate Inside()
      reads this
    {
      Within(store, managed)
    }

    // ---- pinning

    /** The CPUs a container may run on; `noHt` caches the single-thread CPUs. */
    method PinBalloon(id: Id)
      requires id in store && CoresAgree(system, store[id].cpus + store[id].shared)
      modifies this`pins
      ensures pinCpu ==> Pinned(system, cache, pins, store[id])
      ensures forall c :: c !in store[id].containers ==> SamePin(old(pins), pins, c)
      ensures !pinCpu ==> pins == old(pins)
    {
      var b := store[id];
      var pinnable := b.cpus + b.shared;
      var noHt: CpuSet := {};
      for i := 0 to |b.containers|
        invariant pinCpu ==> forall j :: 0 <= j < i ==> IsPinned(system, cache, pins, b, b.containers[j])
        invariant forall c :: c !in b.containers ==> SamePin(old(pins), pins, c)
        invariant noHt == {} || noHt == SmallestThreads(system, pinnable)
        invariant !pinCpu ==> pins == old(pins)
      {
        var c := b.containers[i];
        if c in cache {
          var allowedCpus := pinnable;
          if HidesHyperthreads(b.def, cache[c]) {
            if |noHt| == 0 {
              noHt := SingleThreadForCpus(system, pinnable);
            }
            allowedCpus := noHt;
          }
          if pinCpu {
            pins := pins[c := allowedCpus];
          }
        }
      }
    }

    method UpdatePinning(ids: seq<Id>)
      requires forall t :: t in ids ==> t in store && CoresAgree(system, store[t].cpus + store[t].shared)
      modifies this`pins
      ensures pinCpu && Separate(store, ids) ==> forall t :: t in ids ==> Pinned(system, cache, pins, store[t])
      ensures OnlyRepinned(old(pins), pins, store, ids)
      ensures !pinCpu ==> pins == old(pins)
    {
      for i := 0 to |ids|
        invariant pinCpu && Separate(store, ids) ==> forall j :: 0 <= j < i ==> Pinned(system, cache, pins, store[ids[j]])
        invariant OnlyRepinned(old(pins), pins, store, ids)
        invariant !pinCpu ==> pins == old(pins)
      {
        ghost var before := pins;
        assert ids[i] in ids;
        PinBalloon(ids[i]);
        if pinCpu && Separate(store, ids) {
          forall j | 0 <= j < i ensures Pinned(system, cache, pins, store[ids[j]]) {
            StaysPinned(before, pins, ids[i], ids[j]);
          }
        }
        forall c | (forall t :: t in ids && t in store ==> c !in store[t].containers) ensures SamePin(old(pins), pins, c) {
          assert SamePin(old(pins), before, c) && SamePin(before, pins, c);
        }
      }
    }

    lemma StaysPinned(before: map<Ctr, CpuSet>, after: map<Ctr, CpuSet>, t: Id, u: Id)
      requires t in store && u in store && Separate(store, [t, u])
      requires Pinned(system, cache, before, store[u]) && Pinned(system, cache, after, store[t])
      requires forall c :: c !in store[t].containers ==> SamePin(before, after, c)
      ensures Pinned(system, cache, after, store[u])
    {
      if t != u {
        forall c | c in store[u].containers ensures IsPinned(system, cache, after, store[u], c) {
          assert t in [t, u] && u in [t, u];
          assert IsPinned(system, cache, before, store[u], c) && SamePin(before, after, c);
        }
      }
    }

    // ---- sharing idle CPUs

    method ElementsNearby(level: Option<int>, cpus: CpuSet, idle: CpuSet) returns (r: CpuSet)
      ensures r == if level.None? || level.value !in levels then {} else Nearby(levels[level.value], cpus, idle)
    {
      r := {};
      if level.Some? && level.value in levels {
        var elements := levels[level.value];
        for i := 0 to |elements|
          invariant r == Nearby(elements[..i], cpus, idle)
        {
          assert elements[..i+1][..i] == elements[..i];
          if elements[i] * cpus != {} {
            r := r + elements[i] * idle;
          }
        }
        assert elements[..|elements|] == elements;
      }
    }

    /** Takes CPUs away from, and gives CPUs to, balloons that share idle CPUs; returns the ones to repin. */
    method ShareIdleCpus(addCpus: CpuSet, remove: CpuSet) returns (updated: seq<Id>)
      requires Distinct(balloons) && InStore(store, balloons)
      modifies this`store
      ensures store == ReshareAll(levels, old(store), balloons, addCpus - isolated, remove)
      ensures forall t :: t in updated ==> t in balloons
      ensures forall t :: t in balloons && store[t].shared != old(store)[t].shared ==> t in updated
    {
      updated := [];
      var add := addCpus - isolated;
      for i := 0 to |balloons|
        invariant store == ReshareAll(levels, old(store), balloons[..i], add, remove)
        invariant forall t :: t in updated ==> t in balloons
        invariant forall t :: t in balloons[..i] && store[t].shared != old(store)[t].shared ==> t in updated
      {
        var id := balloons[i];
        assert balloons[..i+1] == balloons[..i] + [id] && id !in balloons[..i] && id in balloons;
        var shared, changed := Reshare(store[id], add, remove);
        if changed {
          updated := updated + [id];
        }
        ReshareStep(old(store), store, balloons[..i], id, add, remove);
        store := store[id := store[id].(shared := shared)];
      }
      assert balloons[..|balloons|] == balloons;
    }

    method Reshare(b: Balloon, add: CpuSet, remove: CpuSet) returns (shared: CpuSet, changed: bool)
      ensures shared == Reshared(levels, b, add, remove)
      ensures shared != b.shared ==> changed
    {
      shared, changed := b.shared, false;
      if shared * remove != {} {
        shared, changed := shared - remove, true;
      } else {
        NothingToRemove(shared, remove);
      }
      assert shared == b.shared - remove;
      var before := |shared|;
      var nearby := ElementsNearby(b.def.shareLevel, b.cpus, add);
      SubsetSize(shared, shared + nearby);
      shared := shared + nearby;
      if |shared| != before {
        changed := true;
      } else {
        SubsetOfSameSize(b.shared - remove, shared);
      }
    }

    lemma ReshareStep(store0: Store, store1: Store, done: seq<Id>, id: Id, add: CpuSet, remove: CpuSet)
      requires store1 == ReshareAll(levels, store0, done, add, remove) && id in store0 && id !in done
      ensures store1[id] == store0[id]
      ensures store1[id := store0[id].(shared := Reshared(levels, store0[id], add, remove))] ==
              ReshareAll(levels, store0, done + [id], add, remove)
    {
    }

    // ---- choosing CPUs

    /** CPUs to grow into or to shrink from. Hints from devices, load and CPU classes are arbitrary here. */
    method ChooseCpus(cpus: CpuSet, free: CpuSet, delta: int) returns (r: CpuTree.Choice)
      ensures CpuTree.Fits(r, cpus, free, delta)
      ensures CpuTree.Possible(nodes, height, cpus, free, delta) ==> r.Choice?
    {
      var balancing: bool, spread: bool, dynamic: bool, hints: seq<seq<CpuSet>> := *, *, *, *;
      var devices: CpuSet -> seq<seq<CpuSet>> := *;
      var tree := new CpuTree.Allocator(nodes, height, balancing, spread, dynamic, devices, hints);
      r := tree.ResizeCpus(cpus, free, delta);
    }

    /** Some delta free CPUs, or none if that is impossible. */
    method TakeCpus(cpus: CpuSet, free: CpuSet, delta: int, priority: CpuPriority) returns (taken: Option<CpuSet>)
      requires topo.WellFormed() && cpus <= topo.Usable() && free <= topo.Usable() && cpus !! free && delta > 0
      ensures taken.Some? ==> taken.value <= free && |taken.value| == delta
      ensures TreeOk() ==> (taken.Some? <==> delta <= |free|)
    {
      var choice := ChooseCpus(cpus, free, delta);
      if TreeOk() {
        CpuTree.SmallerTree(nodes, height, topo.Usable(), cpus + free);
      }
      if choice.Error? {
        return None;
      }
      SubsetSize(choice.addFrom, free);
      CpuAlloc.UsableIsAllocatable(topo, choice.addFrom, delta);
      var ok, result, left := CpuAlloc.AllocateCpus(topo, choice.addFrom, delta, Stages.ALLOC_DEFAULT, priority);
      taken := if ok then Some(result) else None;
    }

    /** Some delta of the given CPUs to give up, or none if that is impossible. */
    method GiveCpus(cpus: CpuSet, free: CpuSet, delta: int, priority: CpuPriority) returns (given: Option<CpuSet>)
      requires topo.WellFormed() && cpus <= topo.Usable() && free <= topo.Usable() && cpus !! free && delta > 0
      ensures given.Some? ==> given.value <= cpus && |given.value| == delta
      ensures TreeOk() ==> (given.Some? <==> delta <= |cpus|)
    {
      var choice := ChooseCpus(cpus, free, -delta);
      if TreeOk() {
        CpuTree.SmallerTree(nodes, height, topo.Usable(), cpus + free);
      }
      if choice.Error? {
        return None;
      }
      SubsetSize(choice.removeFrom, cpus);
      CpuAlloc.UsableIsAllocatable(topo, choice.removeFrom, |choice.removeFrom| - delta);
      var ok, kept, released := CpuAlloc.ReleaseCpus(topo, choice.removeFrom, delta, Stages.ALLOC_DEFAULT, priority);
      given := if ok then Some(released) else None;
    }

    // ---- resizing

    /** Managed CPUs are free or in exactly one of the given leaf balloons. */
    ghost predicate Base(leaves: set<Id>)
      reads this
    {
      && SystemOk() && Inside() && Structure(store, balloons)
      && Partition(managed, freeCpus, store, leaves)
    }

    /** What resizing works on: a leaf balloon, listed or without containers. */
    ghost predicate Resizable(id: Id, leaves: set<Id>)
      reads this
    {
      Base(leaves) && id in leaves && (id in balloons || store[id].containers == [])
    }

    ghost predicate PinsRight()
      reads this
    {
      RightPins(pinCpu, system, cache, pins, store, balloons)
    }

    /** Unless an undone resize has disturbed that, balloons still share free CPUs only if they did. */
    ghost predicate KeepsSharing(was: bool, now: bool, before: Store, free: CpuSet)
      reads this
    {
      && (now ==> was) && (TreeOk() && was ==> now)
      && (now && SharesFree(before, balloons, free, isolated) ==> SharesFree(store, balloons, freeCpus, isolated))
    }

    /** Pins listed balloons anew after CPUs of one balloon and shared CPUs have changed. */
    method Repin(id: Id, updated: seq<Id>, ghost before: Store)
      requires InStore(before, balloons) && SameRoster(before, store) && id in store && SystemOk() && Inside()
      requires id in balloons || store[id].containers == []
      requires forall t :: t in updated ==> t in balloons
      requires forall t :: t in balloons && t != id ==> store[t].cpus == before[t].cpus
      requires forall t :: t in balloons && t != id && store[t].shared != before[t].shared ==> t in updated
      modifies this`pins
      ensures RightPins(pinCpu, system, cache, old(pins), before, balloons) ==> PinsRight()
    {
      forall t | t in updated + [id] ensures t in store && CoresAgree(system, store[t].cpus + store[t].shared) {
        assert t in updated || t == id;
      }
      UpdatePinning(updated);
      ghost var middle := pins;
      UpdatePinning([id]);
      if RightPins(pinCpu, system, cache, old(pins), before, balloons) {
        SeparateStays(before, updated, id);
      }
      if pinCpu && RightPins(pinCpu, system, cache, old(pins), before, balloons) {
        forall c | (forall t :: t in updated + [id] && t in store ==> c !in store[t].containers)
          ensures SamePin(old(pins), pins, c)
        {
          assert forall t :: t in updated ==> t in updated + [id];
          assert id in updated + [id];
          assert SamePin(old(pins), middle, c) && SamePin(middle, pins, c);
        }
        assert id in [id];
        forall t | t in updated + [id] ensures Pinned(system, cache, pins, store[t]) {
          if t in updated && t != id {
            PinnedThroughout(middle, t, id);
          }
        }
        RepinChanged(system, cache, old(pins), pins, before, store, balloons, updated + [id]);
      }
    }

    lemma PinnedThroughout(middle: map<Ctr, CpuSet>, t: Id, id: Id)
      requires t in store && id in store && t != id && Separate(store, [id, t])
      requires Pinned(system, cache, middle, store[t]) && OnlyRepinned(middle, pins, store, [id])
      ensures Pinned(system, cache, pins, store[t])
    {
      forall c | c in store[t].containers ensures IsPinned(system, cache, pins, store[t], c) {
        assert t in [id, t] && id in [id, t];
        assert IsPinned(system, cache, middle, store[t], c) && SamePin(middle, pins, c);
      }
    }

    lemma SeparateStays(before: Store, updated: seq<Id>, id: Id)
      requires SameRoster(before, store) && Separate(before, balloons) && id in store
      requires id in balloons || store[id].containers == []
      requires forall t :: t in updated ==> t in balloons
      ensures Separate(store, balloons) && Separate(store, updated) && Separate(store, [id])
      ensures forall t :: t in updated ==> Separate(store, [id, t])
    {
      forall t, u, c | t in balloons && u in balloons && t != u && t in store && u in store && c in store[t].containers
        ensures c !in store[u].containers
      {
        assert SameBalloon(before[t], store[t]) && SameBalloon(before[u], store[u]);
      }
      forall t | t in updated ensures Separate(store, [id, t]) {
        if id !in balloons {
          assert store[id].containers == [];
        }
      }
    }

    /** Gives a balloon its new CPUs and reshares idle CPUs; returns balloons whose shared CPUs changed. */
    method MoveCpus(id: Id, cpus: CpuSet, free: CpuSet, add: CpuSet, remove: CpuSet, ghost leaves: set<Id>)
      returns (updated: seq<Id>)
      requires Structure(store, balloons) && id in leaves && id in store && Inside()
      requires Partition(managed, free, WithCpus(store, id, cpus), leaves)
      requires add <= free && freeCpus <= free + remove
      modifies this`freeCpus, this`store
      ensures Partition(managed, freeCpus, store, leaves) && SameRoster(old(store), store) && Inside()
      ensures Structure(store, balloons) && freeCpus == free && store[id].cpus == cpus
      ensures forall i :: i in store && i != id ==> store[i].cpus == old(store)[i].cpus
      ensures forall t :: t in updated ==> t in balloons
      ensures forall t :: t in balloons && t != id && store[t].shared != old(store)[t].shared ==> t in updated
      ensures UnlistedShare(old(store), store, balloons)
      ensures store == ReshareAll(levels, WithCpus(old(store), id, cpus), balloons, add - isolated, remove)
      ensures SharesFree(old(store), balloons, old(freeCpus), isolated) ==> SharesFree(store, balloons, freeCpus, isolated)
    {
      hide Partition, Structure, IsUnion, ReshareAll, SharesFree, UnlistedShare, Within, CpuTree.IsTree;
      ghost var before := store;
      LeafWithin(managed, free, WithCpus(store, id, cpus), leaves, id);
      MoveKeeps(store, balloons, id, cpus);
      freeCpus := free;
      store := WithCpus(store, id, cpus);
      ghost var moved := store;
      MovedShares(before, id, cpus, balloons, managed, old(freeCpus), free + remove, isolated);
      ReshareKeeps(levels, isolated, moved, balloons, freeCpus, add - isolated, remove, leaves);
      ReshareUnlisted(levels, before, id, cpus, balloons, add - isolated, remove);
      StructureIsListed(moved, balloons);
      updated := ShareIdleCpus(add, remove);
      MovedAndShared(before, moved, store, balloons, id, managed, free, leaves);
    }

    method Reassign(id: Id, cpus: CpuSet, free: CpuSet, add: CpuSet, remove: CpuSet, ghost leaves: set<Id>)
      requires SystemOk() && Inside() && Structure(store, balloons) && id in leaves && id in store
      requires id in balloons || store[id].containers == []
      requires Partition(managed, free, WithCpus(store, id, cpus), leaves)
      requires add <= free && freeCpus <= free + remove
      modifies this`freeCpus, this`store, this`pins
      ensures Resizable(id, leaves) && SameRoster(old(store), store)
      ensures freeCpus == free && store[id].cpus == cpus
      ensures forall i :: i in store && i != id ==> store[i].cpus == old(store)[i].cpus
      ensures UnlistedShare(old(store), store, balloons)
      ensures store == ReshareAll(levels, WithCpus(old(store), id, cpus), balloons, add - isolated, remove)
      ensures SharesFree(old(store), balloons, old(freeCpus), isolated) ==> SharesFree(store, balloons, freeCpus, isolated)
      ensures old(PinsRight()) ==> PinsRight()
    {
      hide Partition, Structure, SharesFree, RightPins, Within, CpuTree.IsTree;
      ghost var before := store;
      StructureIsListed(before, balloons);
      var updated := MoveCpus(id, cpus, free, add, remove, leaves);
      assert SameBalloon(before[id], store[id]);
      Repin(id, updated, before);
    }

    /** Moves free CPUs into a balloon. */
    method Inflate(id: Id, more: CpuSet, ghost leaves: set<Id>)
      requires Resizable(id, leaves) && more <= freeCpus
      modifies this`freeCpus, this`store, this`pins
      ensures Resizable(id, leaves) && SameRoster(old(store), store)
      ensures freeCpus == old(freeCpus) - more && store[id].cpus == old(store)[id].cpus + more
      ensures forall i :: i in store && i != id ==> store[i].cpus == old(store)[i].cpus
      ensures UnlistedShare(old(store), store, balloons)
      ensures store == ReshareAll(levels, WithCpus(old(store), id, store[id].cpus), balloons, freeCpus - isolated, more)
      ensures SharesFree(old(store), balloons, old(freeCpus), isolated) ==> SharesFree(store, balloons, freeCpus, isolated)
      ensures old(PinsRight()) ==> PinsRight()
    {
      PartitionGrow(managed, freeCpus, store, leaves, id, more);
      Reassign(id, store[id].cpus + more, freeCpus - more, freeCpus - more, more, leaves);
    }

    /** Moves CPUs of a balloon to the free ones. */
    method Deflate(id: Id, less: CpuSet, ghost leaves: set<Id>)
      requires Resizable(id, leaves) && less <= store[id].cpus
      modifies this`freeCpus, this`store, this`pins
      ensures Resizable(id, leaves) && SameRoster(old(store), store)
      ensures freeCpus == old(freeCpus) + less && store[id].cpus == old(store)[id].cpus - less
      ensures forall i :: i in store && i != id ==> store[i].cpus == old(store)[i].cpus
      ensures UnlistedShare(old(store), store, balloons)
      ensures store == ReshareAll(levels, WithCpus(old(store), id, store[id].cpus), balloons, less - isolated, {})
      ensures SharesFree(old(store), balloons, old(freeCpus), isolated) ==> SharesFree(store, balloons, freeCpus, isolated)
      ensures old(PinsRight()) ==> PinsRight()
    {
      PartitionShrink(managed, freeCpus, store, leaves, id, less);
      Reassign(id, store[id].cpus - less, freeCpus + less, less, {}, leaves);
    }

    /** Adds CPUs to a balloon, up to the given number, or leaves everything as it was. */
    method Grow(id: Id, count: nat, ghost leaves: set<Id>) returns (ok: bool)
      requires Resizable(id, leaves) && count > |store[id].cpus|
      modifies this`freeCpus, this`store, this`pins
      ensures Resizable(id, leaves) && SameRoster(old(store), store)
      ensures ok ==> |store[id].cpus| == count
      ensures !ok ==> freeCpus == old(freeCpus) && store == old(store) && pins == old(pins)
      ensures |freeCpus| + |store[id].cpus| == |old(freeCpus)| + |old(store)[id].cpus|
      ensures TreeOk() ==> (ok <==> count <= |old(store)[id].cpus| + |old(freeCpus)|)
      ensures forall i :: i in store && i != id ==> store[i].cpus == old(store)[i].cpus
      ensures UnlistedShare(old(store), store, balloons)
      ensures freeCpus <= old(freeCpus)
      ensures ResizedExactly(levels, isolated, balloons, old(store), store, freeCpus, id)
      ensures SharesFree(old(store), balloons, old(freeCpus), isolated) ==> SharesFree(store, balloons, freeCpus, isolated)
      ensures old(PinsRight()) ==> PinsRight()
    {
      hide ReshareAll, Structure, SharesFree, RightPins, CoresAgree, CpuTree.IsTree, UnlistedShare, SameRoster, Within, Partition;
      LeafWithin(managed, freeCpus, store, leaves, id);
      NothingResized(store, [], 0, balloons);
      var b := store[id];
      var taken := TakeCpus(b.cpus, freeCpus, count - |b.cpus|, b.def.priority);
      if taken.None? {
        return false;
      }
      DisjointUnionSize(b.cpus, taken.value);
      SubsetSize(taken.value, freeCpus);
      assert b.cpus + taken.value - b.cpus == taken.value;
      Inflate(id, taken.value, leaves);
      ok := true;
    }

    /** Takes CPUs from a balloon, down to the given number, or leaves everything as it was. */
    method Shrink(id: Id, count: nat, ghost leaves: set<Id>) returns (ok: bool)
      requires Resizable(id, leaves) && count < |store[id].cpus|
      modifies this`freeCpus, this`store, this`pins
      ensures Resizable(id, leaves) && SameRoster(old(store), store)
      ensures ok ==> |store[id].cpus| == count
      ensures !ok ==> freeCpus == old(freeCpus) && store == old(store) && pins == old(pins)
      ensures |freeCpus| + |store[id].cpus| == |old(freeCpus)| + |old(store)[id].cpus|
      ensures TreeOk() ==> ok
      ensures forall i :: i in store && i != id ==> store[i].cpus == old(store)[i].cpus
      ensures UnlistedShare(old(store), store, balloons)
      ensures ResizedExactly(levels, isolated, balloons, old(store), store, freeCpus, id)
      ensures SharesFree(old(store), balloons, old(freeCpus), isolated) ==> SharesFree(store, balloons, freeCpus, isolated)
      ensures old(PinsRight()) ==> PinsRight()
    {
      hide ReshareAll, Structure, SharesFree, RightPins, CoresAgree, CpuTree.IsTree, UnlistedShare, SameRoster, Within, Partition;
      LeafWithin(managed, freeCpus, store, leaves, id);
      NothingResized(store, [], 0, balloons);
      var b := store[id];
      var given := GiveCpus(b.cpus, freeCpus, |b.cpus| - count, b.def.priority);
      if given.None? {
        return false;
      }
      SubsetSize(given.value, b.cpus);
      DisjointUnionSize(freeCpus, given.value);
      assert b.cpus - (b.cpus - given.value) == given.value;
      Deflate(id, given.value, leaves);
      ok := true;
    }

    /** Resizes a plain balloon to fit the given request, or leaves everything as it was. */
    method ResizePlain(id: Id, milliCpus: nat, ghost leaves: set<Id>) returns (ok: bool)
      requires Resizable(id, leaves)
      modifies this`freeCpus, this`store, this`pins
      ensures Resizable(id, leaves) && SameRoster(old(store), store)
      ensures ok ==> |store[id].cpus| == CpuCount(store[id].def, milliCpus) && WithinLimits(store[id])
      ensures ok && |store[id].cpus| > store[id].def.minCpus ==> 1000 * (|store[id].cpus| - 1) < milliCpus
      ensures ok && 1000 * |store[id].cpus| < milliCpus ==>
                store[id].def.maxCpus > 0 && |store[id].cpus| >= store[id].def.maxCpus
      ensures !ok ==> freeCpus == old(freeCpus) && store == old(store) && pins == old(pins)
      ensures forall i :: i in store && i != id ==> store[i].cpus == old(store)[i].cpus
      ensures UnlistedShare(old(store), store, balloons)
      ensures TreeOk() ==> (ok <==> CpuCount(store[id].def, milliCpus) <= |old(store)[id].cpus| + |old(freeCpus)|)
      ensures |store[id].cpus| >= |old(store)[id].cpus| ==> freeCpus <= old(freeCpus)
      ensures |freeCpus| + |store[id].cpus| == |old(freeCpus)| + |old(store)[id].cpus|
      ensures ResizedExactly(levels, isolated, balloons, old(store), store, freeCpus, id)
      ensures SharesFree(old(store), balloons, old(freeCpus), isolated) ==> SharesFree(store, balloons, freeCpus, isolated)
      ensures old(PinsRight()) ==> PinsRight()
    {
      hide ReshareAll, Structure, SharesFree, RightPins, CoresAgree, CpuTree.IsTree, CpuCount, UnlistedShare, Within;
      var oldCount, newCount := |store[id].cpus|, CpuCount(store[id].def, milliCpus);
      CpuCountWithinLimits(store[id].def, milliCpus);
      ghost var before := store;
      NothingResized(store, [], milliCpus, balloons);
      if oldCount == newCount {
        return true;
      }
      if newCount > oldCount {
        ok := Grow(id, newCount, leaves);
      } else {
        ok := Shrink(id, newCount, leaves);
      }
      RosterKeepsDef(before, store, id);
    }

    /** Resizes components in order, up to the first that fails. */
    method ResizeEach(components: seq<Id>, milliCpus: nat, ghost was: nat, ghost leaves: set<Id>)
      returns (ok: bool, original: seq<CpuSet>, cpus: CpuSet)
      requires Base(leaves) && Distinct(components)
      requires forall i :: i in components ==> IsComponent(store, i) && i in leaves
      modifies this`freeCpus, this`store, this`pins
      ensures Base(leaves) && SameRoster(old(store), store)
      ensures Remembers(old(store), store, components, original)
      ensures OthersSame(old(store), store, Elements(components))
      ensures ok ==> ResizedAll(store, components, cpus, milliCpus)
      ensures UnlistedShare(old(store), store, balloons)
      ensures TreeOk() && EqualSized(old(store), components, was) && !ok ==> freeCpus <= old(freeCpus)
      ensures TreeOk() && EqualSized(old(store), components, was) ==>
                (ok <==> SumTargets(old(store), components, milliCpus) <= SumCpus(old(store), components) + |old(freeCpus)|)
      ensures SharesFree(old(store), balloons, old(freeCpus), isolated) ==> SharesFree(store, balloons, freeCpus, isolated)
      ensures old(PinsRight()) ==> PinsRight()
    {
      hide Partition, Structure, Within, CoresAgree, RightPins, SharesFree, ResizedExactly, SameRoster, Remembers,
           UnlistedShare, ResizedAll, IsComponent, EqualSized, CpuCount, CpuTree.IsTree, SumTargets, SumCpus;
      original, cpus := [], {};
      NothingResized(store, components, milliCpus, balloons);
      for k := 0 to |components|
        invariant Base(leaves) && SameRoster(old(store), store) && |original| == k
        invariant Remembers(old(store), store, components, original) && UnlistedShare(old(store), store, balloons)
        invariant ResizedAll(store, components[..k], cpus, milliCpus)
        invariant KeepsSharing(true, true, old(store), old(freeCpus)) && (old(PinsRight()) ==> PinsRight())
        invariant EqualSized(old(store), components, was) && milliCpus >= was ==> freeCpus <= old(freeCpus)
        invariant EqualSized(old(store), components, was) ==>
                    |freeCpus| + SumTargets(old(store), components[..k], milliCpus) ==
                    |old(freeCpus)| + SumCpus(old(store), components[..k])
      {
        var id := components[k];
        ghost var done, before := components[..k], store;
        assert components[..k+1] == done + [id] && id in components && id !in done;
        StaysComponent(old(store), store, id);
        ComponentIsThere(store, id);
        var current := store[id].cpus;
        if EqualSized(old(store), components, was) {
          NotYetResized(old(store), store, components, original, was, milliCpus);
        }
        ok := ResizePlain(id, milliCpus, leaves);
        RosterKeepsDef(before, store, id);
        if EqualSized(old(store), components, was) {
          NextOfSum(old(store), before, components, k, was, milliCpus);
        }
        OneMoreResized(old(store), before, store, components, original, balloons);
        original := original + [current];
        OthersRemembered(old(store), store, components, original);
        if !ok {
          return;
        }
        ComponentIsThere(before, id);
        RosterKeeps(before, store, id);
        ComponentResized(before, store, done, id, cpus, milliCpus);
        cpus := cpus + store[id].cpus;
      }
      assert components[..|components|] == components;
      OthersRemembered(old(store), store, components, original);
      ok := true;
    }

    /** What a component adds to the sums, and what a failure to resize it means for them. */
    lemma NextOfSum(start: Store, now: Store, components: seq<Id>, k: nat, was: nat, milliCpus: nat)
      requires k < |components| && EqualSized(start, components, was) && SameRoster(start, now)
      requires components[k] in now && |now[components[k]].cpus| == CpuCount(now[components[k]].def, was)
      ensures SumCpus(start, components[..k+1]) == SumCpus(start, components[..k]) + |now[components[k]].cpus|
      ensures SumTargets(start, components[..k+1], milliCpus) ==
              SumTargets(start, components[..k], milliCpus) + CpuCount(now[components[k]].def, milliCpus)
      ensures was <= milliCpus ==>
                SumTargets(start, components, milliCpus) - SumCpus(start, components) >=
                SumTargets(start, components[..k+1], milliCpus) - SumCpus(start, components[..k+1])
    {
      assert components[k] in components && SameBalloon(start[components[k]], now[components[k]]);
      SumOneMore(start, components, k, milliCpus);
      if was <= milliCpus {
        SumsGrow(start, components, k + 1, was, milliCpus);
      }
    }

    /** Gives components their CPUs back after a resize that failed halfway. */
    method RestoreCpus(components: seq<Id>, original: seq<CpuSet>, ghost before: Store)
      requires SameRoster(before, store) && Remembers(before, store, components, original)
      modifies this`store
      ensures SameRoster(before, store)
      ensures forall i :: i in store ==> store[i].cpus == before[i].cpus && store[i].shared == old(store)[i].shared
    {
      assert components[0..|original|] == components[..|original|];
      for j := 0 to |original|
        invariant Restored(before, old(store), store, components[j..|original|])
      {
        ghost var rest := components[j..|original|];
        assert rest[0] == components[j] && rest[1..] == components[j+1..|original|];
        RestoredNext(before, old(store), store, rest);
        store := WithCpus(store, components[j], original[j]);
      }
    }

    /**
     Undoes a resize that failed halfway. Balloons keep the idle CPUs they share; that is right if and
     only if none of these goes back to a component.
     */
    method UndoResize(components: seq<Id>, original: seq<CpuSet>, free: CpuSet, ghost before: Store, ghost leaves: set<Id>)
      requires SystemOk() && Inside() && SameRoster(before, store) && Within(before, managed) && Structure(before, balloons)
      requires Partition(managed, free, before, leaves) && Remembers(before, store, components, original)
      requires forall i :: i in components ==> i !in balloons
      modifies this`freeCpus, this`store
      ensures Base(leaves) && SameRoster(before, store) && freeCpus == free && OthersSame(before, store, {})
      ensures forall i :: i in store ==> store[i].shared == old(store)[i].shared
      ensures SharesFree(old(store), balloons, old(freeCpus), isolated) ==>
                (SharesFree(store, balloons, freeCpus, isolated) <==> ShareNone(old(store), balloons, old(freeCpus) - free))
      ensures old(PinsRight()) ==> PinsRight()
    {
      hide CoresAgree, RightPins, CpuTree.IsTree;
      freeCpus := free;
      RestoreCpus(components, original, before);
      ExtendsKeeps(before, store, balloons);
      PartitionBySameCpus(managed, free, before, store, leaves);
      UndoKeepsShared(old(store), store, balloons, old(freeCpus), free, isolated);
      UndoKeepsPins(before, old(store), store, balloons, components, original, pinCpu, system, cache, pins);
    }

    /** The balloon, listed or new, may be resized. Components are not listed. */
    ghost predicate Sizable(id: Id, leaves: set<Id>)
      reads this
    {
      && id in store && ComponentsArePlain(store, store[id]) && LeavesOf(store, id) <= leaves
      && (id in balloons || store[id].containers == [])
      && EvenlySized(store, store[id].components)
      && (!store[id].Plain() ==> id !in leaves && forall i :: i in store[id].components ==> i !in balloons)
    }

    /** Resizes a composite balloon by resizing each component to an equal share. */
    method ResizeComposite(id: Id, milliCpus: nat, ghost leaves: set<Id>) returns (ok: bool)
      requires Base(leaves) && !(id in store && store[id].Plain()) && Sizable(id, leaves)
      modifies this`freeCpus, this`store, this`pins, this`undisturbed
      ensures Base(leaves) && SameRoster(old(store), store)
      ensures ok ==> var b := store[id]; ResizedAll(store, b.components, b.cpus, milliCpus / |b.components|)
      ensures !ok ==> freeCpus == old(freeCpus) && OthersSame(old(store), store, {})
      ensures OthersSame(old(store), store, {id} + Elements(store[id].components))
      ensures UnlistedShare(old(store), store, balloons)
      ensures KeepsSharing(old(undisturbed), undisturbed, old(store), old(freeCpus))
      ensures old(PinsRight()) ==> PinsRight()
      ensures ok ==> undisturbed == old(undisturbed) && KeepsSharing(true, true, old(store), old(freeCpus))
      ensures old(undisturbed) && SharesFree(old(store), balloons, old(freeCpus), isolated) ==>
                (undisturbed <==> SharesFree(store, balloons, freeCpus, isolated))
      ensures TreeOk() ==> undisturbed == old(undisturbed)
      ensures TreeOk() ==> (ok <==> CanResize(old(store), id, milliCpus, |old(freeCpus)|))
    {
      hide Partition, Structure, Within, IsUnion, CoresAgree, RightPins, SharesFree, ResizedAll, EqualSized, CpuTree.IsTree,
           Remembers, IsComponent, ComponentsArePlain, SumTargets, SumCpus;
      var components, free := store[id].components, freeCpus;
      ghost var before := store;
      ComponentsAreLeaves(store, id, leaves);
      var original, cpus;
      ghost var was :| EqualSized(store, components, was);
      ok, original, cpus := ResizeEach(components, milliCpus / |components|, was, leaves);
      assert SameBalloon(before[id], store[id]);
      if ok {
        SetUnion(id, cpus, before, leaves, milliCpus / |components|);
      } else {
        if freeCpus <= free {
          assert freeCpus - free == {};
        }
        undisturbed := undisturbed && ShareNone(store, balloons, freeCpus - free);
        UndoResize(components, original, free, before, leaves);
      }
    }

    lemma ComponentsAreLeaves(store: Store, id: Id, leaves: set<Id>)
      requires id in store && ComponentsArePlain(store, store[id]) && !store[id].Plain() && LeavesOf(store, id) <= leaves
      ensures Distinct(store[id].components) && forall i :: i in store[id].components ==> IsComponent(store, i) && i in leaves
    {
      forall i | i in store[id].components ensures IsComponent(store, i) && i in leaves {
        var k :| 0 <= k < |store[id].components| && store[id].components[k] == i;
        assert IsComponent(store, store[id].components[k]) && i in LeavesOf(store, id);
      }
    }

    /** Gives a composite balloon the CPUs of its components. */
    method SetUnion(id: Id, cpus: CpuSet, ghost before: Store, ghost leaves: set<Id>, ghost milliCpus: nat)
      requires Base(leaves) && SameRoster(before, store) && id in store && id !in leaves && !store[id].Plain()
      requires ResizedAll(store, store[id].components, cpus, milliCpus) && Elements(store[id].components) <= leaves
      requires OthersSame(before, store, Elements(store[id].components))
      requires id in balloons || store[id].containers == []
      modifies this`store, this`pins
      ensures Base(leaves) && SameRoster(before, store) && ResizedAll(store, store[id].components, store[id].cpus, milliCpus)
      ensures OthersSame(before, store, {id} + Elements(store[id].components))
      ensures forall i :: i in store ==> i in old(store) && store[i].shared == old(store)[i].shared
      ensures SharesFree(old(store), balloons, freeCpus, isolated) ==> SharesFree(store, balloons, freeCpus, isolated)
      ensures old(PinsRight()) ==> PinsRight()
    {
      hide CoresAgree, RightPins, CpuTree.IsTree, Structure, CpuCount;
      StructureIsListed(store, balloons);
      MoveKeeps(store, balloons, id, cpus);
      ghost var now := store;
      forall c | c in cpus ensures c in managed {
        var i :| i in Elements(store[id].components) && c in store[i].cpus;
      }
      store := WithCpus(store, id, cpus);
      ExtendsTwice(before, now, store);
      PartitionBySameCpus(managed, freeCpus, now, store, leaves);
      UnionStays(now, store, Elements(store[id].components), cpus);
      Repin(id, [], now);
    }

    method ResizeBalloon(id: Id, milliCpus: nat, ghost leaves: set<Id>) returns (ok: bool)
      requires Base(leaves) && Sizable(id, leaves)
      modifies this`freeCpus, this`store, this`pins, this`undisturbed
      ensures Base(leaves) && SameRoster(old(store), store)
      ensures ok ==> FitsRequest(store, id, milliCpus)
      ensures !ok ==> freeCpus == old(freeCpus) && OthersSame(old(store), store, {})
      ensures TreeOk() ==> (ok <==> CanResize(old(store), id, milliCpus, |old(freeCpus)|))
      ensures OthersSame(old(store), store, {id} + LeavesOf(store, id))
      ensures UnlistedShare(old(store), store, balloons)
      ensures KeepsSharing(old(undisturbed), undisturbed, old(store), old(freeCpus))
      ensures old(PinsRight()) ==> PinsRight()
    {
      hide Partition, Structure, Within, IsUnion, CoresAgree, RightPins, SharesFree, ResizedExactly, CpuTree.IsTree;
      ghost var before := store;
      if store[id].Plain() {
        assert id in LeavesOf(store, id);
        ok := ResizePlain(id, milliCpus, leaves);
      } else {
        ok := ResizeComposite(id, milliCpus, leaves);
      }
      assert SameBalloon(before[id], store[id]);
    }

    // ---- creating and deleting

    /** Listed balloons of a type. */
    method BalloonsByDef(def: Def) returns (same: seq<Id>)
      requires Distinct(balloons) && InStore(store, balloons)
      ensures Distinct(same) && Elements(same) == OfDef(store, balloons, def) && |same| == |OfDef(store, balloons, def)|
      ensures forall t :: t in same <==> t in balloons && store[t].def == def
    {
      same := [];
      for i := 0 to |balloons|
        invariant Distinct(same) && forall t :: t in same <==> t in balloons[..i] && store[t].def == def
      {
        var id := balloons[i];
        assert balloons[..i+1] == balloons[..i] + [id] && id !in balloons[..i] && id in balloons;
        if store[id].def == def {
          same := same + [id];
        }
      }
      assert balloons[..|balloons|] == balloons;
      assert Elements(same) == OfDef(store, balloons, def);
      DistinctElements(same);
    }

    /** The smallest instance number that no balloon of a type has. */
    method FreeInstance(same: seq<Id>) returns (n: nat)
      requires InStore(store, same)
      ensures !IsTaken(store, same, n) && forall m :: 0 <= m < n ==> IsTaken(store, same, m)
    {
      n := 0;
      while n < |same|
        invariant n <= |same|
        invariant forall m :: 0 <= m < n ==> IsTaken(store, same, m)
      {
        var isFree := true;
        for i := 0 to |same|
          invariant isFree ==> forall j :: 0 <= j < i ==> store[same[j]].instance != n
          invariant !isFree ==> IsTaken(store, same, n)
        {
          assert same[i] in same;
          if store[same[i]].instance == n {
            isFree := false;
            break;
          }
        }
        if isFree {
          return;
        }
        n := n + 1;
      }
      AllNumbersTaken(store, same);
    }

    /** The number of a new balloon of a type, unless the type has as many as it may. */
    method MayCreate(def: Def) returns (r: Option<nat>)
      requires Distinct(balloons) && InStore(store, balloons)
      ensures r.Some? <==> MayHaveMore(store, balloons, def)
      ensures r.Some? ==> CanNumber(store, balloons, def, r.value)
    {
      var same := BalloonsByDef(def);
      if def.maxBalloons > 0 && def.maxBalloons <= |same| {
        return None;
      }
      var n := FreeInstance(same);
      forall t | t in balloons && store[t].def == def ensures store[t].instance != n {
        assert t in same;
      }
      r := Some(n);
    }

    /** A new balloon without CPUs, in the store but not listed. */
    method Create(def: Def, instance: nat, components: seq<Id>, ghost leaves: set<Id>) returns (id: Id)
      requires Base(leaves) && Fresh()
      modifies this`store, this`next
      ensures id !in old(store) && id !in leaves && store == old(store)[id := NewBalloon(def, instance, components)]
      ensures Base(leaves) && Base(leaves + {id}) && Fresh() && Grown(old(store), store)
      ensures SharesFree(old(store), balloons, freeCpus, isolated) ==> SharesFree(store, balloons, freeCpus, isolated)
      ensures old(PinsRight()) ==> PinsRight()
    {
      hide Partition, Structure, RightPins, SharesFree, CoresAgree;
      LeavesAreThere(leaves);
      id := Id(next);
      next := next + 1;
      ghost var before := store;
      var b := NewBalloon(def, instance, components);
      store := store[id := b];
      AddKeeps(before, balloons, id, b);
      AddKeepsPins(before, balloons, id, b, freeCpus, isolated, pinCpu, system, cache, pins);
      PartitionAdd(managed, freeCpus, before, leaves, id, b);
      PartitionBySameCpus(managed, freeCpus, before, store, leaves);
    }

    /** A new plain balloon with its minimum of CPUs, or nothing. */
    method NewPlain(def: Def, ghost leaves: set<Id>) returns (r: Option<Id>)
      requires Base(leaves) && Fresh() && def.components == []
      modifies this`freeCpus, this`store, this`pins, this`next
      ensures Base(leaves + Created(r)) && Fresh() && Grown(old(store), store)
      ensures r.None? ==> freeCpus == old(freeCpus)
      ensures r.Some? ==> r.value !in old(store) && IsComponent(store, r.value) && store[r.value].def == def
      ensures r.Some? ==> store[r.value].shared == {}
      ensures r.Some? ==> FitsRequest(store, r.value, 1000 * def.minCpus)
      ensures r.Some? ==> CanNumber(store, balloons, def, store[r.value].instance)
      ensures r.Some? ==> MayHaveMore(old(store), balloons, def)
      ensures TreeOk() ==> (r.Some? <==> MayHaveMore(old(store), balloons, def) && def.minCpus <= |old(freeCpus)|)
      ensures r.Some? ==> |freeCpus| + def.minCpus == |old(freeCpus)| && |store[r.value].cpus| == def.minCpus
      ensures SharesFree(old(store), balloons, old(freeCpus), isolated) ==> SharesFree(store, balloons, freeCpus, isolated)
      ensures old(PinsRight()) ==> PinsRight()
    {
      hide Partition, Within, CoresAgree, RightPins, SharesFree, ResizedExactly, Structure, CanNumber, CpuCount, CpuTree.IsTree,
           OfDef, MayHaveMore;
      MinimumIsForNothing(def);
      LeavesAreThere(leaves);
      var n := MayCreate(def);
      if n.None? {
        assert leaves + Created(None) == leaves;
        return None;
      }
      ghost var before := store;
      var id := Create(def, n.value, [], leaves);
      ghost var added := store;
      CanStillNumber(before, added, balloons, def, n.value);
      var ok := ResizePlain(id, 1000 * def.minCpus, leaves + {id});
      assert SameBalloon(added[id], store[id]);
      SmallGrowth(before, added, store, id);
      CanStillNumber(added, store, balloons, def, n.value);
      if !ok {
        DropEmpty(managed, freeCpus, store, leaves, id);
        assert leaves + Created(None) == leaves;
        return None;
      }
      r := Some(id);
    }

    lemma SmallGrowth(before: Store, added: Store, after: Store, id: Id)
      requires Grown(before, added) && SameRoster(added, after) && id !in before
      requires forall i :: i in after && i != id ==> after[i].cpus == added[i].cpus
      ensures Grown(before, after)
    {
      ExtendsTwice(before, added, after);
    }

    /** The component type with the fewest balloons, the first of these if there are many. */
    method LeastUsed(names: seq<string>) returns (k: nat)
      requires names != []
      ensures IsLeastUsed(store, balloons, names, k)
    {
      k := 0;
      for i := 1 to |names|
        invariant k < i <= |names|
        invariant forall j :: 0 <= j < i ==> Instances(store, balloons, names[k]) <= Instances(store, balloons, names[j])
        invariant forall j :: 0 <= j < k ==> Instances(store, balloons, names[k]) < Instances(store, balloons, names[j])
      {
        if Instances(store, balloons, names[i]) < Instances(store, balloons, names[k]) {
          k := i;
        }
      }
    }

    /** Drops a balloon from the list, if it is there, and frees its CPUs. */
    method DeleteBalloon(id: Id, ghost leaves: set<Id>)
      requires Base(leaves) && id in store && LeavesOf(store, id) <= leaves && Composed(store, id)
      modifies this`balloons, this`freeCpus
      ensures balloons == Without(old(balloons), id) && freeCpus == old(freeCpus) + store[id].cpus
      ensures Base(leaves - LeavesOf(store, id))
      ensures SharesFree(store, old(balloons), old(freeCpus), isolated) ==> SharesFree(store, balloons, freeCpus, isolated)
      ensures old(PinsRight()) ==> PinsRight()
    {
      hide CoresAgree, CpuTree.IsTree;
      var remaining := [];
      for i := 0 to |balloons|
        invariant remaining == Without(balloons[..i], id)
      {
        assert balloons[..i+1][..i] == balloons[..i];
        if balloons[i] != id {
          remaining := remaining + [balloons[i]];
        }
      }
      assert balloons[..|balloons|] == balloons;
      UnlistKeepsPins(store, balloons, id, freeCpus, store[id].cpus, isolated, pinCpu, system, cache, pins);
      Unlist(store, balloons, id);
      PartitionDrop(managed, freeCpus, store, leaves, LeavesOf(store, id), store[id].cpus);
      balloons := remaining;
      freeCpus := freeCpus + store[id].cpus;
    }

    /** Creates a balloon of each named type, up to the first that fails. */
    method CreateComponents(names: seq<string>, ghost leaves: set<Id>) returns (ok: bool, components: seq<Id>)
      requires Base(leaves) && Fresh()
      requires forall name :: name in names && DefByName(defs, name).Some? ==> DefByName(defs, name).value.components == []
      modifies this`freeCpus, this`store, this`pins, this`next
      ensures Base(leaves + Elements(components)) && Fresh() && Grown(old(store), store)
      ensures NewComponents(old(store), store, components)
      ensures OfTypes(defs, store, components, names) && (ok ==> |components| == |names|)
      ensures ok ==> |freeCpus| + NamesTotal(defs, names, 0) == |old(freeCpus)|
      ensures TreeOk() ==> (ok <==> Creatable(defs, old(store), balloons, names) && NamesTotal(defs, names, 0) <= |old(freeCpus)|)
      ensures EqualSized(store, components, 0)
      ensures KeepsSharing(undisturbed, undisturbed, old(store), old(freeCpus))
      ensures old(PinsRight()) ==> PinsRight()
    {
      hide Partition, Structure, Within, CoresAgree, RightPins, SharesFree, FitsRequest, CanNumber, CpuTree.IsTree, MayHaveMore,
           NamesTotal, CpuCount, Made, Creatable, Grown, IsComponent, DefByName;
      LeavesAreThere(leaves);
      NothingMade(defs, store, names);
      NoneCreatable(names);
      components := [];
      assert leaves + Elements(components) == leaves;
      for k := 0 to |names|
        invariant Base(leaves + Elements(components)) && Fresh() && |components| == k
        invariant Made(defs, old(store), store, components, names) && Creatable(defs, old(store), balloons, names[..k])
        invariant |freeCpus| + NamesTotal(defs, names[..k], 0) == |old(freeCpus)|
        invariant KeepsSharing(undisturbed, undisturbed, old(store), old(freeCpus)) && (old(PinsRight()) ==> PinsRight())
      {
        var def := DefByName(defs, names[k]);
        assert names[k] in names;
        NamesOneMore(defs, names, k, 0);
        NamesTotalGrows(defs, names, k + 1, 0, 0);
        CreatableMore(defs, old(store), balloons, names, k);
        if def.None? {
          MadeMeans(old(store), components, names);
          return false, components;
        }
        MinimumIsForNothing(def.value);
        StillCreatable(old(store), components, names, def.value);
        ghost var before := store;
        var r := NewPlain(def.value, leaves + Elements(components));
        if r.None? {
          assert leaves + Elements(components) + Created(r) == leaves + Elements(components);
          StillMade(defs, old(store), before, store, components, names);
          MadeMeans(old(store), components, names);
          return false, components;
        }
        OneMoreMade(defs, old(store), before, store, components, names, r.value);
        assert leaves + Elements(components) + Created(r) == leaves + Elements(components + [r.value]);
        components := components + [r.value];
      }
      assert names[..|names|] == names;
      MadeMeans(old(store), components, names);
      ok := true;
    }

    lemma MadeMeans(before: Store, components: seq<Id>, names: seq<string>)
      requires Made(defs, before, store, components, names)
      ensures Grown(before, store) && NewComponents(before, store, components)
      ensures EqualSized(store, components, 0) && OfTypes(defs, store, components, names)
    {
    }

    lemma NoneCreatable(names: seq<string>)
      ensures Creatable(defs, store, balloons, names[..0])
    {
    }

    lemma StillCreatable(before: Store, components: seq<Id>, names: seq<string>, def: Def)
      requires Made(defs, before, store, components, names) && InStore(before, balloons)
      ensures MayHaveMore(before, balloons, def) <==> MayHaveMore(store, balloons, def)
    {
      MayStillHaveMore(before, store, balloons, def);
    }

    lemma StillComponents(before: Store, middle: Store, after: Store, components: seq<Id>)
      requires NewComponents(before, middle, components) && Extends(middle, after)
      ensures NewComponents(before, after, components)
    {
      forall i | i in components ensures IsComponent(after, i) {
        assert SameBalloon(middle[i], after[i]);
      }
    }

    /** Undoes the creation of components. */
    method DeleteComponents(components: seq<Id>, ghost before: Store, ghost leaves: set<Id>)
      requires Base(leaves + Elements(components)) && NewComponents(before, store, components)
      requires leaves <= before.Keys && InStore(before, balloons)
      modifies this`balloons, this`freeCpus
      ensures Base(leaves) && balloons == old(balloons)
      ensures KeepsSharing(undisturbed, undisturbed, store, old(freeCpus))
      ensures old(PinsRight()) ==> PinsRight()
    {
      hide Partition, Structure, Within, CoresAgree, RightPins, SharesFree, CpuTree.IsTree;
      for k := 0 to |components|
        invariant Base(leaves + Elements(components[k..])) && balloons == old(balloons)
        invariant KeepsSharing(undisturbed, undisturbed, store, old(freeCpus)) && (old(PinsRight()) ==> PinsRight())
      {
        var id := components[k];
        assert id in components && IsComponent(store, id);
        assert components[k..] == [id] + components[k+1..];
        assert id in leaves + Elements(components[k..]);
        ComponentGoes(leaves, components, k);
        DeleteBalloon(id, leaves + Elements(components[k..]));
        WithoutAbsent(old(balloons), id);
      }
      assert leaves + Elements(components[|components|..]) == leaves;
    }

    lemma ComponentGoes(leaves: set<Id>, components: seq<Id>, k: nat)
      requires k < |components| && Distinct(components) && components[k] !in leaves
      ensures leaves + Elements(components[k..]) - {components[k]} == leaves + Elements(components[k+1..])
    {
      var id := components[k];
      assert components[k..] == [id] + components[k+1..] && id !in components[k+1..];
    }

    /** A composite balloon of the given components, or nothing but the components gone. */
    method Compose(def: Def, instance: nat, components: seq<Id>, ghost before: Store, ghost leaves: set<Id>)
      returns (r: Option<Id>)
      requires Base(leaves + Elements(components)) && Fresh() && Grown(before, store)
      requires NewComponents(before, store, components) && components != [] && EqualSized(store, components, 0)
      requires leaves <= before.Keys && InStore(before, balloons)
      modifies this`balloons, this`freeCpus, this`store, this`pins, this`next, this`undisturbed
      ensures Fresh() && Grown(before, store) && balloons == old(balloons) && Extends(old(store), store)
      ensures KeepsSharing(old(undisturbed), undisturbed, old(store), old(freeCpus))
      ensures old(PinsRight()) ==> PinsRight()
      ensures r.Some? ==> r.value in store && store[r.value].shared == {}
      ensures r.None? ==> Base(leaves)
      ensures r.Some? ==> r.value !in before && r.value in store && Base(leaves + LeavesOf(store, r.value))
      ensures r.Some? ==> SameBalloon(store[r.value], NewBalloon(def, instance, components))
      ensures r.Some? ==> ComponentsArePlain(store, store[r.value]) && FitsRequest(store, r.value, 1000 * def.minCpus)
      ensures TreeOk() ==> (r.Some? <==> SumTargets(old(store), components, 1000 * def.minCpus / |components|) <=
                                         SumCpus(old(store), components) + |old(freeCpus)|)
    {
      hide Partition, Structure, Within, CoresAgree, RightPins, SharesFree, FitsRequest, CanNumber, CpuTree.IsTree, SumTargets,
           SumCpus;
      ghost var start := store;
      var id := Create(def, instance, components, leaves + Elements(components));
      ghost var added := store;
      StillComponents(before, start, added, components);
      ComponentsUnlisted(before, added, components);
      EqualSizedStays(start, added, components, 0);
      SumsStay(start, added, components, 1000 * def.minCpus / |components|);
      var ok := ResizeBalloon(id, 1000 * def.minCpus, leaves + Elements(components));
      ComposedGrowth(before, start, added, store, id, components);
      if !ok {
        DeleteComponents(components, before, leaves);
        return None;
      }
      r := Some(id);
    }

    lemma ComponentsUnlisted(before: Store, after: Store, components: seq<Id>)
      requires NewComponents(before, after, components) && InStore(before, balloons)
      ensures forall i :: i in components ==> i !in balloons
    {
    }

    lemma ComposedGrowth(before: Store, start: Store, added: Store, after: Store, id: Id, components: seq<Id>)
      requires Grown(before, start) && Grown(start, added) && SameRoster(added, after)
      requires NewComponents(before, added, components) && id !in before && id in added && added[id].components == components
      requires OthersSame(added, after, {id} + Elements(components))
      ensures Grown(before, after) && NewComponents(before, after, components) && ComponentsArePlain(after, after[id])
      ensures Extends(start, after)
      ensures SameBalloon(added[id], after[id])
    {
      GrownTwice(before, start, added);
      ExtendsTwice(before, added, after);
      ExtendsTwice(start, added, after);
      StillComponents(before, added, after, components);
      assert SameBalloon(added[id], after[id]);
    }

    /** The types to create components of: all, or the one with the fewest balloons; nothing if that needs an unknown type. */
    method ComponentNames(def: Def) returns (names: Option<seq<string>>)
      requires def.components != []
      ensures names.Some? ==> names.value != [] && forall name :: name in names.value ==> name in def.components
      ensures names.Some? ==> AreComponentNames(store, balloons, def, names.value)
      ensures !def.balanced ==> names.Some?
      ensures def.balanced ==> (names.None? <==> exists name :: name in def.components && DefByName(defs, name).None?)
    {
      if !def.balanced {
        return Some(def.components);
      }
      if exists name :: name in def.components && DefByName(defs, name).None? {
        return None;
      }
      var k := LeastUsed(def.components);
      names := Some([def.components[k]]);
    }

    /** A new composite balloon, or nothing: no components and no CPUs are left over. */
    method NewComposite(def: Def, instance: nat, ghost leaves: set<Id>) returns (r: Option<Id>)
      requires Base(leaves) && Fresh() && def.components != [] && FlatType(defs, def)
      requires CanNumber(store, balloons, def, instance) && MayHaveMore(store, balloons, def)
      modifies this`balloons, this`freeCpus, this`store, this`pins, this`next, this`undisturbed
      ensures Fresh() && Grown(old(store), store) && balloons == old(balloons)
      ensures r.None? ==> Base(leaves) && freeCpus == old(freeCpus)
      ensures r.Some? ==> IsNew(old(store), store, balloons, def, r.value) && Base(leaves + LeavesOf(store, r.value))
      ensures r.Some? ==> MadeOf(defs, old(store), balloons, store, store[r.value])
      ensures TreeOk() ==> (r.Some? <==> CanCreate(defs, old(store), balloons, def, |old(freeCpus)|))
      ensures r.Some? ==> store[r.value].shared == {}
      ensures KeepsSharing(old(undisturbed), undisturbed, old(store), old(freeCpus))
      ensures old(PinsRight()) ==> PinsRight()
    {
      hide OfTypes, AreComponentNames, Typed, Structure, Within, CoresAgree, RightPins, SharesFree, FitsRequest, CanNumber, IsUnion, Partition, EqualSized,
           CpuTree.IsTree, ComponentsArePlain, LeavesOf, DefByName, IsNew, NewComponents, SystemOk, Base, Grown, CanCreate,
           MayHaveMore, SumTargets, SumCpus, NamesTotal;
      ghost var before, free := store, freeCpus;
      LeavesAreThere(leaves);
      GrownItself(store);
      var names := ComponentNames(def);
      if names.None? {
        UnknownComponent(def);
        return None;
      }
      CanCreateOnlySo(defs, before, balloons, def, names.value, |free|);
      var ok, components := CreateComponents(names.value, leaves);
      ghost var start := store;
      ComponentsFit(defs, before, start, balloons, def, names.value, components, ok, |free|, |freeCpus|);
      if ok {
        r := Compose(def, instance, components, before, leaves);
      } else {
        DeleteComponents(components, before, leaves);
        r := None;
      }
      if r.Some? {
        assert SameBalloon(store[r.value], NewBalloon(def, instance, components));
        StillOfTypes(defs, start, store, components, names.value);
        NamedIsTyped(defs, before, store, balloons, store[r.value], names.value);
        ComponentsAreNew(before, start, store, balloons, def, instance, r.value, components);
      } else {
        FreeAsBefore(before, free, leaves);
      }
    }

    lemma UnknownComponent(def: Def)
      requires def.balanced && exists name :: name in def.components && DefByName(defs, name).None?
      ensures !CanCreate(defs, store, balloons, def, |freeCpus|)
    {
    }

    /** What creating the components leaves suffices for their shares if and only if there was enough for these at first. */
    lemma ComponentsFit(defs: seq<Def>, before: Store, start: Store, top: seq<Id>, def: Def, names: seq<string>,
                        components: seq<Id>, ok: bool, free: nat, left: nat)
      requires OfTypes(defs, start, components, names) && EqualSized(start, components, 0) && names != []
      requires ok ==> |components| == |names| && left + NamesTotal(defs, names, 0) == free
      requires def.balanced ==> forall name :: name in def.components ==> DefByName(defs, name).Some?
      ensures !(Creatable(defs, before, top, names) && NamesTotal(defs, names, 0) <= free) ==>
                !CanCompose(defs, before, top, def, names, free)
      ensures ok && Creatable(defs, before, top, names) ==>
                (CanCompose(defs, before, top, def, names, free) <==>
                 SumTargets(start, components, 1000 * def.minCpus / |components|) <= SumCpus(start, components) + left)
    {
      hide Creatable;
      NamesTotalGrows(defs, names, 0, 0, 1000 * def.minCpus / |names|);
      if ok {
        TypesTotal(defs, start, components, names, 0);
        TypesTotal(defs, start, components, names, 1000 * def.minCpus / |names|);
      }
    }

    lemma FreeAsBefore(before: Store, free: CpuSet, leaves: set<Id>)
      requires Base(leaves) && Partition(managed, free, before, leaves) && Grown(before, store)
      ensures freeCpus == free
    {
      PartitionDeterminesFree(managed, free, freeCpus, before, store, leaves);
    }

    lemma LeavesAreThere(leaves: set<Id>)
      requires Base(leaves)
      ensures leaves <= store.Keys && InStore(store, balloons) && Distinct(balloons)
      ensures Partition(managed, freeCpus, store, leaves)
    {
    }

    lemma ComponentsAreNew(before: Store, start: Store, after: Store, top: seq<Id>, def: Def, instance: nat, id: Id,
                           components: seq<Id>)
      requires NewComponents(before, start, components) && components != [] && id !in before && id in after
      requires SameBalloon(after[id], NewBalloon(def, instance, components)) && def.components != []
      requires ComponentsArePlain(after, after[id]) && FitsRequest(after, id, 1000 * def.minCpus)
      requires CanNumber(before, top, def, instance) && Grown(before, after) && InStore(before, top) && Typed(after, after[id])
      ensures IsNew(before, after, top, def, id)
    {
      CanStillNumber(before, after, top, def, instance);
    }

    /** A new balloon with its minimum of CPUs, or nothing. */
    method New(def: Def, ghost leaves: set<Id>) returns (r: Option<Id>)
      requires Base(leaves) && Fresh() && FlatType(defs, def)
      modifies this`balloons, this`freeCpus, this`store, this`pins, this`next, this`undisturbed
      ensures Fresh() && Grown(old(store), store) && balloons == old(balloons)
      ensures r.None? ==> Base(leaves) && freeCpus == old(freeCpus)
      ensures r.Some? ==> IsNew(old(store), store, balloons, def, r.value) && Base(leaves + LeavesOf(store, r.value))
      ensures r.Some? && def.components != [] ==> MadeOf(defs, old(store), balloons, store, store[r.value])
      ensures TreeOk() ==> (r.Some? <==> CanCreate(defs, old(store), balloons, def, |old(freeCpus)|))
      ensures r.Some? ==> store[r.value].shared == {}
      ensures KeepsSharing(old(undisturbed), undisturbed, old(store), old(freeCpus))
      ensures old(PinsRight()) ==> PinsRight()
    {
      hide Partition, Within, CoresAgree, RightPins, SharesFree, FitsRequest, CanNumber, CpuTree.IsTree, MadeOf, MayHaveMore;
      if def.components == [] {
        ghost var before := store;
        r := NewPlain(def, leaves);
        assert r.None? ==> leaves + Created(r) == leaves;
        assert r.Some? ==> LeavesOf(store, r.value) == Created(r);
      } else {
        var n := MayCreate(def);
        if n.None? {
          return None;
        }
        r := NewComposite(def, n.value, leaves);
      }
    }

    // ---- what every request keeps

    /** Containers run where they should, and unless disturbed balloons share nothing but free CPUs. */
    ghost predicate Tidy()
      reads this
    {
      && (undisturbed ==> SharesFree(store, balloons, freeCpus, isolated)) && (TreeOk() ==> undisturbed)
      && (placedOnce ==> PinsRight())
    }

    ghost predicate Valid()
      reads this
    {
      && Sound(store, balloons, applied) && Base(Leaves(store, balloons)) && Fresh()
      && AllServed(cache, store, balloons) && Tidy()
    }

    /**
     No container is pinned to a CPU of another balloon, plain or composite, or to an isolated free one,
     unless an undone resize has left its balloon sharing CPUs that were taken back. That never happens
     if the topology tree has all CPUs. A container runs on none of these CPUs if and only if its pin is
     not empty. It is not if the balloon is plain, or composite with components that get CPUs.
     */
    lemma ContainersStayApart(t: Id, u: Id, c: Ctr)
      requires Valid() && (undisturbed || TreeOk()) && pinCpu && placedOnce && t in balloons && u in balloons && t != u
      requires c in store[t].containers && c in cache
      ensures c in pins && pins[c] !! store[u].cpus && pins[c] <= store[t].cpus + (freeCpus - isolated)
      ensures RunsOn(pins[c], topo.Usable()) !! store[u].cpus <==> pins[c] != {} || store[u].cpus == {}
      ensures pins[c] == {} <==> store[t].cpus + store[t].shared == {}
      ensures store[t].Plain() || GetsCpus(store, store[t].components, Demand(cache, store[t].containers)) ==> pins[c] != {}
    {
      NoForeignCpus(managed, freeCpus, isolated, store, balloons, system, cache, pins, t, u, c);
      ServesRequests(cache, store, store[t]);
      if store[u].cpus != {} {
        var cpu := Pick(store[u].cpus);
        assert cpu in managed && cpu in topo.Usable();
      }
    }

    /**
     A balloon without CPU limits has all the CPU time its containers request, but for rounding of the
     shares of components. A plain one has a CPU at least.
     */
    lemma RequestsAreServed(t: Id)
      requires Valid() && t in balloons && store[t].containers != []
      ensures store[t].Plain() ==> |store[t].cpus| >= 1
      ensures store[t].Plain() && store[t].def.maxCpus == 0 ==> 1000 * |store[t].cpus| >= Requested(cache, store[t].containers)
      ensures !store[t].Plain() && Unlimited(store, store[t].components) ==>
                1000 * |store[t].cpus| >= Requested(cache, store[t].containers) - (|store[t].components| - 1)
    {
      ServesRequests(cache, store, store[t]);
    }

    lemma GrownIsListed(before: Store, after: Store, top: seq<Id>)
      requires Grown(before, after) && InStore(before, top)
      ensures InStore(after, top)
    {
    }

    /** Lists a new balloon. */
    method Enlist(id: Id, ghost def: Def, ghost before: Store)
      requires Sound(before, balloons, applied) && Grown(before, store) && IsNew(before, store, balloons, def, id)
      requires Base(Leaves(before, balloons) + LeavesOf(store, id)) && Fresh()
      requires AllServed(cache, store, balloons) && Tidy()
      requires store[id].shared == {}
      modifies this`balloons
      ensures Valid() && balloons == old(balloons) + [id]
      ensures |OfDef(store, balloons, def)| == |OfDef(store, old(balloons), def)| + 1
    {
      hide Partition, Within, CoresAgree, Sound, IsNew, AllServed, RightPins, SharesFree, Structure, LeavesOf, Grown, OfDef,
           CpuTree.IsTree;
      SoundIsListed(before, balloons, applied);
      GrownIsListed(before, store, balloons);
      NewIsEmpty(before, store, balloons, def, id);
      ListKeepsSound(before, store, balloons, applied, def, id);
      SoundIsListed(store, balloons + [id], applied);
      ListKeepsServed(store, balloons, id, cache);
      ListKeepsPins(store, balloons, id, freeCpus, isolated, pinCpu, system, cache, pins);
      balloons := balloons + [id];
    }

    /** Pins the listed balloons whose shared CPUs have changed. */
    method PinUpdated(updated: seq<Id>, ghost before: Store)
      requires InStore(before, balloons) && SameRoster(before, store) && SystemOk() && Inside()
      requires forall t :: t in updated ==> t in balloons
      requires forall t :: t in balloons ==> store[t].cpus == before[t].cpus
      requires forall t :: t in balloons && store[t].shared != before[t].shared ==> t in updated
      modifies this`pins
      ensures RightPins(pinCpu, system, cache, old(pins), before, balloons) ==> PinsRight()
    {
      UpdatePinning(updated);
      if RightPins(pinCpu, system, cache, old(pins), before, balloons) {
        forall t, u, c | t in balloons && u in balloons && t != u && c in store[t].containers
          ensures c !in store[u].containers
        {
          assert SameBalloon(before[t], store[t]) && SameBalloon(before[u], store[u]);
        }
        if pinCpu {
          RepinChanged(system, cache, old(pins), pins, before, store, balloons, updated);
        }
      }
    }

    /** Reshares idle CPUs among listed balloons. */
    method ShareAndPin(add: CpuSet, remove: CpuSet)
      requires Valid() && add <= freeCpus
      modifies this`store, this`pins
      ensures Valid() && Grown(old(store), store)
      ensures store == ReshareAll(levels, old(store), balloons, add - isolated, remove)
    {
      hide CoresAgree, LimitsHold, AllComposed, Numbered, Enough, RightPins, SharesFree, AllServed, Partition, Within,
           CpuTree.IsTree;
      ghost var before := store;
      ReshareKeepsAll(levels, isolated, before, balloons, applied, managed, freeCpus, add - isolated, remove, cache);
      var updated := ShareIdleCpus(add, remove);
      PinUpdated(updated, before);
    }

    /** A new balloon has what is not free any more. */
    lemma NewTakesFree(before: Store, free: CpuSet, leaves: set<Id>, id: Id)
      requires id in store && Base(leaves + LeavesOf(store, id)) && Partition(managed, free, before, leaves)
      requires Grown(before, store) && LeavesOf(store, id) !! before.Keys && Composed(store, id)
      ensures free == freeCpus + store[id].cpus && |free| == |freeCpus| + |store[id].cpus|
    {
      NewLeavesApart(before, store, balloons, leaves, id);
      PartitionDrop(managed, freeCpus, store, leaves + LeavesOf(store, id), LeavesOf(store, id), store[id].cpus);
      PartitionDeterminesFree(managed, free, freeCpus + store[id].cpus, before, store, leaves);
      LeafCpusNotFree(leaves + LeavesOf(store, id), id);
      DisjointUnionSize(freeCpus, store[id].cpus);
    }

    lemma LeafCpusNotFree(leaves: set<Id>, id: Id)
      requires Base(leaves) && id in store && LeavesOf(store, id) <= leaves && Composed(store, id)
      ensures freeCpus !! store[id].cpus
    {
      if !(freeCpus !! store[id].cpus) {
        var c := CommonMember(freeCpus, store[id].cpus);
        assert false;
      }
    }

    lemma NewSize(before: Store, free: CpuSet, leaves: set<Id>, def: Def, id: Id)
      requires IsNew(before, store, balloons, def, id) && Grown(before, store) && Base(leaves + LeavesOf(store, id))
      requires Partition(managed, free, before, leaves)
      ensures |free| == |freeCpus| + |store[id].cpus| && (def.components == [] ==> |store[id].cpus| == def.minCpus)
    {
      hide Partition, Structure, Within, CoresAgree, CanNumber, IsUnion;
      FitsMeansWithinLimits(store, id, 1000 * def.minCpus);
      NewTakesFree(before, free, leaves, id);
      MinimumIsForNothing(def);
    }

    /** Whether a new balloon has CPUs and can hold a request is known before it is created. */
    lemma NewRoomKnown(before: Store, free: CpuSet, leaves: set<Id>, def: Def, id: Id, milliCpus: nat)
      requires IsNew(before, store, balloons, def, id) && Grown(before, store) && Base(leaves + LeavesOf(store, id))
      requires Partition(managed, free, before, leaves)
      requires def.components != [] ==> MadeOf(defs, before, balloons, store, store[id])
      ensures MaxAvail(store, store[id], freeCpus) >= milliCpus <==> CanHold(defs, before, balloons, def, milliCpus, |free|)
      ensures store[id].cpus != {} <==> StartsWithCpus(defs, before, balloons, def)
    {
      hide Partition, Structure, Within, CoresAgree, CanNumber, AreComponentNames, OfTypes, IsUnion, CompositeRoom, NamesTotal;
      FitsMeansWithinLimits(store, id, 1000 * def.minCpus);
      NewTakesFree(before, free, leaves, id);
      MinimumIsForNothing(def);
      if def.components != [] {
        var names :| AreComponentNames(before, balloons, def, names) && |store[id].components| == |names| &&
                     OfTypes(defs, store, store[id].components, names);
        CompositeRoomKnown(free, leaves + LeavesOf(store, id), id, names);
        HoldsOnlySo(defs, before, balloons, def, names, milliCpus, |free|);
      }
    }

    /** So is whether it can be given CPUs for a request. */
    lemma NewCpusKnown(before: Scene, leaves: set<Id>, def: Def, id: Id, milliCpus: nat)
      requires IsNew(before.store, store, balloons, def, id) && Grown(before.store, store) && Base(leaves + LeavesOf(store, id))
      requires Partition(managed, before.free, before.store, leaves) && before.defs == defs && before.top == balloons
      requires def.components != [] ==> MadeOf(defs, before.store, balloons, store, store[id])
      ensures HasCpus(store, id, milliCpus, |freeCpus|) <==> before.NewHasCpus(def, milliCpus)
    {
      hide Partition, Structure, Within, CoresAgree, CanNumber, AreComponentNames, OfTypes, IsUnion, NamesTotal, SumTargets, SumCpus;
      FitsMeansWithinLimits(store, id, 1000 * def.minCpus);
      NewTakesFree(before.store, before.free, leaves, id);
      MinimumIsForNothing(def);
      if def.components != [] {
        var names :| AreComponentNames(before.store, balloons, def, names) && |store[id].components| == |names| &&
                     OfTypes(defs, store, store[id].components, names);
        CompositeRoomKnown(before.free, leaves + LeavesOf(store, id), id, names);
        NewCompositeCpus(defs, store, id, names, |freeCpus|, milliCpus);
        NewServesOnlySo(before, def, names, milliCpus);
      }
    }

    lemma NewServesOnlySo(before: Scene, def: Def, names: seq<string>, milliCpus: nat)
      requires AreComponentNames(before.store, before.top, def, names) && def.components != [] && names != []
      ensures before.NewHasCpus(def, milliCpus) <==> before.NewServes(def, names, milliCpus)
    {
      hide AreComponentNames, Scene.NewServes;
      if before.NewHasCpus(def, milliCpus) {
        var names' :| AreComponentNames(before.store, before.top, def, names') && names' != [] && before.NewServes(def, names', milliCpus);
        NamesAreUnique(before.store, before.top, def, names, names');
      }
    }

    /** What decides where a container goes. */
    ghost function Now(): Scene
      reads this
    {
      Scene(defs, cache, store, balloons, freeCpus)
    }

    lemma CompositeRoomKnown(free: CpuSet, leaves: set<Id>, id: Id, names: seq<string>)
      requires Base(leaves) && id in store && LeavesOf(store, id) <= leaves && !store[id].Plain()
      requires FitsRequest(store, id, 1000 * store[id].def.minCpus) && ComponentsArePlain(store, store[id])
      requires OfTypes(defs, store, store[id].components, names) && |store[id].components| == |names|
      requires |free| == |freeCpus| + |store[id].cpus|
      ensures |store[id].cpus| == NamesTotal(defs, names, Share(store[id].def, names))
      ensures MaxAvail(store, store[id], freeCpus) == CompositeRoom(defs, store[id].def, names, |free|)
    {
      NewCompositeRoom(defs, store, id, names, managed, freeCpus, leaves);
    }

    /** Gives up a new balloon that was not listed. */
    method Discard(id: Id, ghost def: Def, ghost before: Store, ghost free: CpuSet)
      requires Sound(before, balloons, applied) && Grown(before, store) && IsNew(before, store, balloons, def, id)
      requires Base(Leaves(before, balloons) + LeavesOf(store, id)) && Fresh()
      requires Partition(managed, free, before, Leaves(before, balloons))
      requires AllServed(cache, store, balloons) && Tidy()
      modifies this`freeCpus
      ensures Valid() && freeCpus == free
    {
      hide CoresAgree, Numbered, Enough, CanNumber, Pinned, AllPinned, LimitsHold, AllComposed, Within, CpuTree.IsTree;
      ghost var leaves := Leaves(before, balloons);
      GrownKeepsSound(before, store, balloons, applied);
      NewLeavesApart(before, store, balloons, leaves, id);
      FitsMeansWithinLimits(store, id, 1000 * def.minCpus);
      PartitionDrop(managed, freeCpus, store, leaves + LeavesOf(store, id), LeavesOf(store, id), store[id].cpus);
      freeCpus := freeCpus + store[id].cpus;
      PartitionDeterminesFree(managed, free, freeCpus, before, store, leaves);
    }

    lemma NewLeavesApart(before: Store, after: Store, top: seq<Id>, leaves: set<Id>, id: Id)
      requires leaves <= before.Keys && id in after && LeavesOf(after, id) !! before.Keys
      ensures leaves + LeavesOf(after, id) - LeavesOf(after, id) == leaves
    {
    }

    /** A new listed balloon, as initial balloons are created. */
    method CreateListed(def: Def) returns (r: Option<Id>)
      requires Valid() && FlatType(defs, def)
      modifies this`balloons, this`freeCpus, this`store, this`pins, this`next, this`undisturbed
      ensures Valid() && Grown(old(store), store)
      ensures r.None? ==> balloons == old(balloons) && freeCpus == old(freeCpus)
      ensures r.Some? ==> balloons == old(balloons) + [r.value] && r.value !in old(store)
      ensures r.Some? ==> |OfDef(store, balloons, def)| == |OfDef(old(store), old(balloons), def)| + 1
      ensures r.Some? ==> r.value in store && store[r.value].def == def && |old(freeCpus)| == |freeCpus| + |store[r.value].cpus|
      ensures r.Some? && def.components == [] ==> |store[r.value].cpus| == def.minCpus
      ensures TreeOk() ==> (r.Some? <==> CanCreate(defs, old(store), old(balloons), def, |old(freeCpus)|))
    {
      hide CanCreate, MadeOf, Typed, CoresAgree, Numbered, Enough, CanNumber, RightPins, LimitsHold, AllComposed, Within, Partition, SharesFree,
           FitsRequest, AllServed, CpuTree.IsTree;
      ghost var before, free := store, freeCpus;
      r := New(def, Leaves(store, balloons));
      GrownKeepsSound(before, store, balloons, applied);
      GrownKeepsServed(before, store, balloons, cache);
      ExtendsCounts(before, store, balloons, applied);
      if r.Some? {
        NewSize(before, free, Leaves(before, balloons), def, r.value);
        Enlist(r.value, def, before);
      }
    }

    /**
     An empty balloon of the type, a new one if need be and if it can hold the request. Fails if CPU classes
     cannot be applied to the CPUs of the new one.
     */
    method FillNew(def: Def, milliCpus: nat, classApplies: bool) returns (failed: bool, r: Option<Id>)
      requires Valid() && FlatType(defs, def)
      modifies this`balloons, this`freeCpus, this`store, this`pins, this`next, this`undisturbed
      ensures Valid() && Extends(old(store), store) && old(balloons) <= balloons
      ensures r.None? ==> balloons == old(balloons) && freeCpus == old(freeCpus) && Grown(old(store), store)
      ensures forall t :: t in balloons && t !in old(balloons) ==> store[t].containers == []
      ensures balloons != old(balloons) ==> r.Some? && balloons == old(balloons) + [r.value]
      ensures balloons != old(balloons) ==> MaxAvail(store, store[r.value], freeCpus) >= milliCpus
      ensures r.Some? ==> !failed && r.value in balloons && store[r.value].def == def && store[r.value].containers == []
      ensures balloons != old(balloons) ==> forall t :: t in old(balloons) && store[t].def == def ==> store[t].containers != []
      ensures balloons != old(balloons) && store[r.value].cpus != {} ==> SharesIdle(levels, store, balloons, freeCpus - isolated)
      ensures old(HasEmpty(store, balloons, def)) ==>
                r.Some? && balloons == old(balloons) && store == old(store) && freeCpus == old(freeCpus)
      ensures TreeOk() && !old(HasEmpty(store, balloons, def)) ==>
                (r.Some? <==> old(AddsNew(def, milliCpus)) && (old(StartsWithCpus(defs, store, balloons, def)) ==> classApplies))
      ensures failed ==> !classApplies
      ensures TreeOk() ==> (failed <==> !old(HasEmpty(store, balloons, def)) && old(AddsNew(def, milliCpus)) &&
                                        old(StartsWithCpus(defs, store, balloons, def)) && !classApplies)
      ensures r.Some? && !old(HasEmpty(store, balloons, def)) ==>
                r.value !in old(balloons) && forall m: nat :: HasCpus(store, r.value, m, |freeCpus|) <==> old(Now()).NewHasCpus(def, m)
    {
      hide CoresAgree, Numbered, Enough, CanNumber, RightPins, LimitsHold, AllComposed, Within, Partition, SharesFree,
           FitsRequest, AllServed, ComponentsArePlain, CpuTree.IsTree, SharesIdle;
      failed := false;
      var same := BalloonsByDef(def);
      for i := 0 to |same|
        invariant forall j :: 0 <= j < i ==> store[same[j]].containers != []
      {
        assert same[i] in same;
        if store[same[i]].containers == [] {
          return false, Some(same[i]);
        }
      }
      if |freeCpus| == 0 || |freeCpus| < def.minCpus {
        return false, None;
      }
      failed, r := FillWithNew(def, milliCpus, classApplies);
      forall t | t in old(balloons) && store[t].def == def ensures store[t].containers != [] {
        assert SameBalloon(old(store)[t], store[t]);
        assert t in same;
      }
    }

    lemma StillHasCpus(before: Store, id: Id)
      requires Grown(before, store) && id in before && ComponentsArePlain(before, before[id])
      ensures forall m: nat :: HasCpus(store, id, m, |freeCpus|) <==> HasCpus(before, id, m, |freeCpus|)
    {
      hide HasCpus;
      forall i | i in before[id].components ensures i in before {
        var k :| 0 <= k < |before[id].components| && before[id].components[k] == i;
        assert IsComponent(before, before[id].components[k]);
      }
      forall m: nat ensures HasCpus(store, id, m, |freeCpus|) <==> HasCpus(before, id, m, |freeCpus|) {
        HasCpusStays(before, store, id, m, |freeCpus|);
      }
    }

    ghost predicate AddsNew(def: Def, milliCpus: nat)
      reads this
    {
      CanAdd(defs, store, balloons, def, milliCpus, |freeCpus|)
    }

    method FillWithNew(def: Def, milliCpus: nat, classApplies: bool) returns (failed: bool, r: Option<Id>)
      requires Valid() && FlatType(defs, def)
      modifies this`balloons, this`freeCpus, this`store, this`pins, this`next, this`undisturbed
      ensures Valid() && Extends(old(store), store) && old(balloons) <= balloons
      ensures r.None? ==> balloons == old(balloons) && freeCpus == old(freeCpus) && Grown(old(store), store)
      ensures forall t :: t in balloons && t !in old(balloons) ==> store[t].containers == []
      ensures balloons != old(balloons) ==> r.Some? && balloons == old(balloons) + [r.value]
      ensures balloons != old(balloons) ==> MaxAvail(store, store[r.value], freeCpus) >= milliCpus
      ensures r.Some? ==> !failed && r.value in balloons && store[r.value].def == def && store[r.value].containers == []
      ensures r.Some? ==> balloons != old(balloons) && r.value !in old(balloons)
      ensures r.Some? && store[r.value].cpus != {} ==> SharesIdle(levels, store, balloons, freeCpus - isolated)
      ensures r.Some? ==> forall m: nat :: HasCpus(store, r.value, m, |freeCpus|) <==> old(Now()).NewHasCpus(def, m)
      ensures failed ==> !classApplies
      ensures TreeOk() ==> (failed || r.Some? <==> CanCreate(defs, old(store), old(balloons), def, |old(freeCpus)|) &&
                                                   CanHold(defs, old(store), old(balloons), def, milliCpus, |old(freeCpus)|))
      ensures TreeOk() ==> (failed <==> (failed || r.Some?) && old(StartsWithCpus(defs, store, balloons, def)) && !classApplies)
    {
      hide SharesIdle, CanCreate, CanHold, StartsWithCpus, MadeOf, CpuTree.IsTree, HasCpus, Scene.NewHasCpus, Sound, IsNew, AllServed, MaxAvail, Fresh, SharesFree, RightPins, Partition, Structure, Within,
           CoresAgree, ComponentsArePlain, LeavesOf, CpuTree.IsTree;
      failed := false;
      ghost var before, free := store, freeCpus;
      ValidIsInStore();
      r := New(def, Leaves(store, balloons));
      GrownKeepsSound(before, store, balloons, applied);
      GrownKeepsServed(before, store, balloons, cache);
      if r.None? {
        return;
      }
      NewIsEmpty(before, store, balloons, def, r.value);
      NewRoomKnown(before, free, Leaves(before, balloons), def, r.value, milliCpus);
      if MaxAvail(store, store[r.value], freeCpus) < milliCpus {
        Discard(r.value, def, before, free);
        return false, None;
      }
      if store[r.value].cpus != {} && !classApplies {
        // the balloon was listed, and is unlisted again
        Discard(r.value, def, before, free);
        return true, None;
      }
      forall m: nat ensures HasCpus(store, r.value, m, |freeCpus|) <==> old(Now()).NewHasCpus(def, m) {
        NewCpusKnown(old(Now()), Leaves(before, balloons), def, r.value, m);
      }
      ghost var made := store;
      ListAndShare(r.value, def, before);
      assert SameBalloon(made[r.value], store[r.value]);
      ExtendsTwice(before, made, store);
      MaxAvailStays(made, store, r.value, freeCpus);
      StillHasCpus(made, r.value);
    }

    /** Lists a new balloon; if it has CPUs, these are not idle any more. */
    method ListAndShare(id: Id, ghost def: Def, ghost before: Store)
      requires Sound(before, balloons, applied) && Grown(before, store) && IsNew(before, store, balloons, def, id)
      requires Base(Leaves(before, balloons) + LeavesOf(store, id)) && Fresh()
      requires AllServed(cache, store, balloons) && Tidy() && store[id].shared == {}
      modifies this`balloons, this`store, this`pins
      ensures Valid() && balloons == old(balloons) + [id] && Grown(old(store), store)
      ensures id in store && (store[id].cpus != {} ==> SharesIdle(levels, store, balloons, freeCpus - isolated))
    {
      hide Sound, IsNew, AllServed, Tidy, Fresh, Base, SharesIdle, ReshareAll;
      GrownItself(store);
      Enlist(id, def, before);
      NewIsEmpty(before, store, old(balloons), def, id);
      if store[id].cpus != {} {
        ReshareSharesIdle(levels, store, balloons, freeCpus - isolated, store[id].cpus);
        ShareAndPin(freeCpus, store[id].cpus);
      }
    }

    // ---- choosing a balloon for a container

    method RequestedMilliCpus(id: Id) returns (sum: nat)
      requires id in store
      ensures sum == Requested(cache, store[id].containers)
    {
      sum := 0;
      var containers := store[id].containers;
      for i := 0 to |containers|
        invariant sum == Requested(cache, containers[..i])
      {
        assert containers[..i+1] == containers[..i] + [containers[i]];
        RequestedOneMore(cache, containers[..i], containers[i]);
        if containers[i] in cache {
          sum := sum + cache[containers[i]].request;
        }
      }
      assert containers[..|containers|] == containers;
    }

    /** Existing balloons that a fill method suggests. */
    method Candidates(def: Def, fill: FillMethod, near: Relatives, milliCpus: nat) returns (r: seq<Id>)
      requires InStore(store, balloons)
      ensures forall t :: t in r <==> t in balloons && Suits(cache, store, freeCpus, def, fill, near, milliCpus, t)
    {
      r := [];
      for i := 0 to |balloons|
        invariant forall t :: t in r <==> t in balloons[..i] && Suits(cache, store, freeCpus, def, fill, near, milliCpus, t)
      {
        assert balloons[..i+1] == balloons[..i] + [balloons[i]];
        if Suits(cache, store, freeCpus, def, fill, near, milliCpus, balloons[i]) {
          r := r + [balloons[i]];
        }
      }
      assert balloons[..|balloons|] == balloons;
    }

    /** The balloon with the most room, and the fewest containers of those. */
    method Roomiest(candidates: seq<Id>, inflate: bool) returns (best: Id)
      requires candidates != [] && InStore(store, candidates)
      ensures best in candidates && forall t :: t in candidates ==> Now().Below(inflate, t, best)
    {
      var rooms := [];
      for i := 0 to |candidates|
        invariant |rooms| == i && forall j :: 0 <= j < i ==> rooms[j] == Room(inflate, candidates[j])
      {
        rooms := rooms + [Room(inflate, candidates[i])];
      }
      var most, room := Largest(rooms);
      assert forall i :: i in most ==> i < |candidates|;
      assert forall j :: 0 <= j < |most| ==> most[j] in most;
      var counts: seq<int> := [];
      for i := 0 to |most|
        invariant |counts| == i && forall j :: 0 <= j < i ==> counts[j] == 0 - |store[candidates[most[j]]].containers|
      {
        assert most[i] in most;
        counts := counts + [0 - |store[candidates[most[i]]].containers|];
      }
      var least, count := Largest(counts);
      assert least[0] in least && most[least[0]] in most;
      best := candidates[most[least[0]]];
      forall t | t in candidates
        ensures Room(inflate, t) <= Room(inflate, best)
        ensures Room(inflate, t) == Room(inflate, best) ==> |store[best].containers| <= |store[t].containers|
      {
        var k :| 0 <= k < |candidates| && candidates[k] == t;
        assert rooms[k] <= room;
        if rooms[k] == room {
          var j :| 0 <= j < |most| && most[j] == k;
          assert counts[j] <= count;
        }
      }
    }

    function Room(inflate: bool, t: Id): (r: int)
      requires t in store
      reads this
      ensures r == Now().Room(inflate, t)
    {
      if inflate then MaxFreeMilli(cache, store, store[t], freeCpus) else FreeMilli(cache, store[t])
    }

    /** The best candidate is what the method suggested before any unlisted balloons were added. */
    lemma BestIsChosen(start: Scene, before: Store, def: Def, fill: FillMethod, near: Relatives, milliCpus: nat,
                       candidates: seq<Id>, best: Id)
      requires Grown(start.store, before) && Structure(start.store, start.top) && start.defs == defs && start.cache == cache
      requires best in candidates && InStore(store, candidates)
      requires fill != FillNewBalloon ==> store == before && balloons == start.top && freeCpus == start.free
      requires fill != FillNewBalloon ==> forall t :: t in candidates <==> Now().Suit(def, fill, near, milliCpus, t)
      requires fill != FillNewBalloon ==> forall t :: t in candidates ==> Now().Below(fill == BalancedInflate, t, best)
      requires fill == FillNewBalloon ==> IsFresh(start.(store := before), def, near, milliCpus, candidates)
      requires fill == FillNewBalloon && HasEmpty(before, start.top, def) ==>
                 store == before && balloons == start.top && freeCpus == start.free
      ensures IsChosen(start, def, fill, near, milliCpus, best)
    {
      hide Structure, Scene.Below, HasCpus;
      EmptyStays(start.store, before, start.top, def);
      if fill != FillNewBalloon || HasEmpty(before, start.top, def) {
        SuggestsStays(start, before, def, fill, near, milliCpus, best);
      } else {
        forall m: nat ensures start.(store := before).NewHasCpus(def, m) <==> start.NewHasCpus(def, m) {
          NewHasCpusStays(start, before, def, m);
        }
      }
    }

    /** Balloons that a fill method suggests, or nothing if it forbids going on. */
    method Fill(def: Def, fill: FillMethod, near: Relatives, milliCpus: nat, classApplies: bool) returns (r: Option<seq<Id>>)
      requires Valid() && FlatType(defs, def)
      modifies this`balloons, this`freeCpus, this`store, this`pins, this`next, this`undisturbed
      ensures Valid() && Extends(old(store), store) && old(balloons) <= balloons
      ensures r.Some? ==> forall t :: t in r.value ==> t in balloons && store[t].def == def
      ensures forall t :: t in balloons && t !in old(balloons) ==> store[t].containers == []
      ensures r.None? || r == Some([]) ==> balloons == old(balloons) && freeCpus == old(freeCpus) && Grown(old(store), store)
      ensures fill != FillNewBalloon || old(HasEmpty(store, balloons, def)) ==>
                store == old(store) && balloons == old(balloons) && freeCpus == old(freeCpus)
      ensures TreeOk() || fill != FillNewBalloon ==>
                (r.None? <==> old(Now()).Stops(def, fill, near, milliCpus, classApplies)) &&
                (r.Some? && r.value != [] <==> old(Now()).Applies(def, fill, near, milliCpus, classApplies))
      ensures r.None? ==> (fill == SamePod && near.pod.None?) || (fill == FillNewBalloon && !classApplies)
      ensures fill != FillNewBalloon && r.Some? ==> forall t :: t in r.value <==> Now().Suit(def, fill, near, milliCpus, t)
      ensures fill == FillNewBalloon && r.Some? && r.value != [] ==> IsFresh(old(Now()), def, near, milliCpus, r.value)
    {
      hide CoresAgree, Numbered, Enough, RightPins, LimitsHold, AllComposed, Within, Partition, SharesFree, AllEven, AllTyped,
           AllServed, Suits, ComponentsArePlain, CpuTree.IsTree, CanAdd, StartsWithCpus, HasCpus, Scene.NewHasCpus;
      SuitedAreOfDef(def, fill, near, milliCpus);
      if fill == FillNewBalloon {
        var failed, id := FillNew(def, milliCpus, classApplies);
        if failed {
          return None;
        }
        r := Some(if id.Some? then [id.value] else []);
      } else if fill == SamePod && near.pod.None? {
        PodlessSuitNone(def, near, milliCpus);
        r := None;
      } else {
        var candidates := Candidates(def, fill, near, milliCpus);
        r := Some(candidates);
        if candidates != [] {
          assert candidates[0] in candidates && Now().Suit(def, fill, near, milliCpus, candidates[0]);
        }
      }
    }

    /** An empty balloon that was there, or a new one, of which is known what it can be resized for. */
    ghost predicate IsFresh(before: Scene, def: Def, near: Relatives, milliCpus: nat, ids: seq<Id>)
      reads this
    {
      && |ids| == 1 && ids[0] in store && store[ids[0]].containers == []
      && if HasEmpty(before.store, before.top, def) then before.Suit(def, FillNewBalloon, near, milliCpus, ids[0])
         else ids[0] !in before.top && forall m: nat :: HasCpus(store, ids[0], m, |freeCpus|) <==> before.NewHasCpus(def, m)
    }

    lemma PodlessSuitNone(def: Def, near: Relatives, milliCpus: nat)
      requires near.pod.None?
      ensures forall t :: !Now().Suit(def, SamePod, near, milliCpus, t)
    {
    }

    lemma SuitedAreOfDef(def: Def, fill: FillMethod, near: Relatives, milliCpus: nat)
      ensures forall t :: Suits(cache, store, freeCpus, def, fill, near, milliCpus, t) ==> t in store && store[t].def == def
      ensures forall t :: Suits(cache, store, freeCpus, def, FillNewBalloon, near, milliCpus, t) <==>
                t in store && store[t].def == def && store[t].containers == []
    {
    }

    /**
     A balloon of the type for a container: what the first fill method that applies suggests, the
     roomiest if there are many. The search ends earlier if a method fails.
     */
    method AllocateBalloonOfDef(def: Def, near: Relatives, milliCpus: nat, classApplies: bool)
      returns (r: Option<Id>, stop: Option<Cause>, ghost k: nat)
      requires Valid() && FlatType(defs, def)
      modifies this`balloons, this`freeCpus, this`store, this`pins, this`next, this`undisturbed
      ensures Valid() && Extends(old(store), store) && old(balloons) <= balloons
      ensures r.Some? ==> r.value in balloons && store[r.value].def == def && stop.None?
      ensures forall t :: t in balloons && t !in old(balloons) ==> store[t].containers == []
      ensures r.None? ==> balloons == old(balloons)
      ensures k <= |FillChain(def)| && (k == |FillChain(def)| <==> r.None? && stop.None?)
      ensures forall j :: 0 <= j < k && (TreeOk() || FillChain(def)[j] != FillNewBalloon) ==>
                !old(Now()).Applies(def, FillChain(def)[j], near, milliCpus, classApplies) &&
                !old(Now()).Stops(def, FillChain(def)[j], near, milliCpus, classApplies)
      ensures k < |FillChain(def)| && (TreeOk() || FillChain(def)[k] != FillNewBalloon) ==>
                (r.Some? <==> old(Now()).Applies(def, FillChain(def)[k], near, milliCpus, classApplies)) &&
                (stop.Some? <==> old(Now()).Stops(def, FillChain(def)[k], near, milliCpus, classApplies))
      ensures stop.Some? ==>
                || (stop == Some(PodUnknown) && FillChain(def)[k] == SamePod && near.pod.None?)
                || (stop == Some(ClassRefused) && FillChain(def)[k] == FillNewBalloon && !classApplies)
      ensures r.Some? ==> IsChosen(old(Now()), def, FillChain(def)[k], near, milliCpus, r.value)
      ensures TreeOk() ==> old(Now()).IsFirst(def, near, milliCpus, classApplies, k)
    {
      hide CoresAgree, Numbered, Enough, RightPins, LimitsHold, AllComposed, Within, Partition, SharesFree, AllEven, AllTyped,
           AllServed, Suits, ComponentsArePlain, FillChain, CpuTree.IsTree, Scene.Applies, Scene.Stops, Scene.Suggests, Scene.Suit,
           HasCpus, HasEmpty;
      var chain := FillChain(def);
      k := 0;
      for i := 0 to |chain|
        invariant Valid() && Grown(old(store), store) && balloons == old(balloons)
        invariant freeCpus == old(freeCpus) && k == i
        invariant forall j :: 0 <= j < i && (TreeOk() || chain[j] != FillNewBalloon) ==>
                    !old(Now()).Applies(def, chain[j], near, milliCpus, classApplies) &&
                    !old(Now()).Stops(def, chain[j], near, milliCpus, classApplies)
      {
        ghost var before := store;
        MethodsStay(old(Now()), before, def, chain[i], near, milliCpus, classApplies);
        var candidates := Fill(def, chain[i], near, milliCpus, classApplies);
        ExtendsTwice(old(store), before, store);
        if candidates.None? {
          return None, Some(if chain[i] == SamePod then PodUnknown else ClassRefused), i;
        }
        if candidates.value != [] {
          var best := Roomiest(candidates.value, chain[i] == BalancedInflate);
          BestIsChosen(old(Now()), before, def, chain[i], near, milliCpus, candidates.value, best);
          return Some(best), None, i;
        }
        GrownTwice(old(store), before, store);
        k := k + 1;
      }
      return None, None, |chain|;
    }

    /**
     What a method suggested, the best of it, of balloons that were there; nothing but unlisted balloons has been
     added then. Or a new balloon.
     */
    ghost predicate IsChosen(before: Scene, def: Def, fill: FillMethod, near: Relatives, milliCpus: nat, best: Id)
      reads this
    {
      && ChosenIn(before, def, fill, near, milliCpus, best, store, freeCpus)
      && (fill != FillNewBalloon || HasEmpty(before.store, before.top, def) ==> balloons == before.top)
    }

    // ---- requests

    /** Resizes a listed balloon; it need not serve its containers before or after. */
    method ResizeListed(id: Id, milliCpus: nat) returns (ok: bool)
      requires Sound(store, balloons, applied) && Base(Leaves(store, balloons)) && id in balloons && Tidy()
      requires ServedBut(cache, store, balloons, id)
      modifies this`freeCpus, this`store, this`pins, this`undisturbed
      ensures Sound(store, balloons, applied) && Base(Leaves(store, balloons)) && Tidy()
      ensures ServedBut(cache, store, balloons, id) && SameRoster(old(store), store)
      ensures ok ==> FitsRequest(store, id, milliCpus)
      ensures !ok ==> OthersSame(old(store), store, {}) && freeCpus == old(freeCpus)
      ensures TreeOk() ==> (ok <==> CanResize(old(store), id, milliCpus, |old(freeCpus)|))
    {
      hide CoresAgree, RightPins, Within, Partition, SharesFree, Sound, ServedBut, FitsRequest, ComponentsArePlain, Structure,
           CpuTree.IsTree, Sizable, UnlistedShare, CanResize;
      ghost var before := store;
      SoundIsListed(before, balloons, applied);
      ListedIsSizable(id);
      ok := ResizeBalloon(id, milliCpus, Leaves(store, balloons));
      assert SameBalloon(before[id], store[id]);
      ResizeKeepsServed(before, store, balloons, id, cache);
      if ok {
        ResizeKeepsSound(before, store, balloons, applied, id, milliCpus);
      } else {
        GrownKeepsSound(before, store, balloons, applied);
      }
    }

    lemma SoundIsListed(store: Store, top: seq<Id>, applied: set<Def>)
      requires Sound(store, top, applied)
      ensures Structure(store, top) && InStore(store, top)
    {
    }

    lemma ListedIsSizable(id: Id)
      requires Sound(store, balloons, applied) && id in balloons
      ensures Sizable(id, Leaves(store, balloons))
    {
      hide Numbered, Enough, LimitsHold, AllComposed, AllTyped;
      forall l | l in LeavesOf(store, id) ensures l in Leaves(store, balloons) {
      }
      if id in Leaves(store, balloons) {
        LeafIsPlain(store, balloons, id);
      }
    }

    lemma ListedIsFitted(id: Id, milliCpus: nat)
      requires Sound(store, balloons, applied) && Base(Leaves(store, balloons)) && id in balloons
      requires FitsRequest(store, id, milliCpus)
      ensures Fitted(store, store[id], milliCpus)
    {
      FitsMeansFitted(store, balloons, id, milliCpus, managed, freeCpus);
    }

    /** Adds a container to a listed balloon that is large enough for it. */
    method AssignContainer(c: Ctr, id: Id)
      requires Sound(store, balloons, applied) && Base(Leaves(store, balloons)) && Fresh() && id in balloons && Tidy()
      requires ServedBut(cache, store, balloons, id)
      requires Serves(cache, store, store[id].(containers := store[id].containers + [c]))
      modifies this`store, this`pins, this`placedOnce
      ensures Valid() && store == WithContainers(old(store), id, old(store)[id].containers + [c])
      ensures placedOnce == (old(placedOnce) && !old(IsAssigned(store, balloons, c)))
    {
      hide Numbered, Enough, RightPins, LimitsHold, AllComposed, SharesFree, Serves, IsAssigned, Pinned, CpuTree.IsTree,
           AllTyped, AllEven, Partition, Structure, AllServed, ServedBut;
      SoundIsListed(store, balloons, applied);
      LeavesAreThere(Leaves(store, balloons));
      ghost var before := store;
      var containers := store[id].containers + [c];
      placedOnce := placedOnce && !IsAssigned(store, balloons, c);
      ContainersKeepSound(store, balloons, applied, id, containers);
      ContainersKeepServed(store, balloons, cache, id, containers);
      ContainersKeepShared(id, containers);
      store := WithContainers(store, id, containers);
      PartitionBySameCpus(managed, freeCpus, before, store, Leaves(before, balloons));
      PinBalloon(id);
      if placedOnce {
        AssignKeepsPins(before, balloons, id, c, pinCpu, system, cache, old(pins), pins);
      }
    }

    lemma ContainersKeepShared(id: Id, containers: seq<Ctr>)
      requires id in store
      ensures SharesFree(store, balloons, freeCpus, isolated) ==>
                SharesFree(WithContainers(store, id, containers), balloons, freeCpus, isolated)
    {
    }

    /** Leaves a listed balloon with only some of its containers. */
    method KeepContainers(id: Id, containers: seq<Ctr>)
      requires Valid() && id in balloons
      requires multiset(containers) <= multiset(store[id].containers)
      requires Requested(cache, containers) <= Requested(cache, store[id].containers)
      modifies this`store
      ensures Valid() && store == WithContainers(old(store), id, containers)
    {
      hide Numbered, Enough, RightPins, LimitsHold, AllComposed, SharesFree, Pinned, CoresAgree, CpuTree.IsTree, AllTyped, AllEven,
           Partition, Structure;
      SoundIsListed(store, balloons, applied);
      LeavesAreThere(Leaves(store, balloons));
      ghost var before := store;
      ContainersKeepSound(store, balloons, applied, id, containers);
      if containers != [] {
        assert containers[0] in multiset(store[id].containers);
      }
      ServesLess(cache, cache, store, store[id], containers);
      ContainersKeepServed(store, balloons, cache, id, containers);
      ContainersKeepShared(id, containers);
      if placedOnce {
        DismissKeepsPins(before, balloons, id, containers, pinCpu, system, cache, pins);
      }
      store := WithContainers(store, id, containers);
      PartitionBySameCpus(managed, freeCpus, before, store, Leaves(before, balloons));
    }

    /** Finds the balloon of a container. */
    method BalloonByContainer(c: Ctr) returns (r: Option<Id>)
      requires InStore(store, balloons)
      ensures r.Some? <==> IsAssigned(store, balloons, c)
      ensures r.Some? ==> r.value in balloons && c in store[r.value].containers
    {
      for i := 0 to |balloons|
        invariant forall j :: 0 <= j < i ==> c !in store[balloons[j]].containers
      {
        assert balloons[i] in balloons;
        if c in store[balloons[i]].containers {
          return Some(balloons[i]);
        }
      }
      r := None;
    }

    /** Places a container into a balloon of the given type, unless it is to be left alone. */
    method AllocateResources(c: Ctr, preserve: bool, def: Option<Def>, near: Relatives, classApplies: bool)
      returns (r: Placement, ghost k: nat)
      requires Valid() && (def.Some? ==> FlatType(defs, def.value))
      modifies this`balloons, this`freeCpus, this`store, this`pins, this`next, this`undisturbed, this`placedOnce
      ensures Valid() && old(balloons) <= balloons
      ensures placedOnce == (old(placedOnce) && !(r.Placed? && old(IsAssigned(store, balloons, c))))
      ensures r.Placed? && old(IsAssigned(store, balloons, c)) ==> !Separate(store, balloons)
      ensures preserve <==> r.Preserved?
      ensures r.Preserved? || r == Failed(NoType) ==> Now() == old(Now()) && pins == old(pins)
      ensures !preserve && def.None? <==> r == Failed(NoType)
      ensures r == Failed(PodUnknown) ==> near.pod.None?
      ensures r == Failed(ClassRefused) ==> !classApplies
      ensures TreeOk() && !preserve && def.Some? ==> IsOutcome(old(Now()), r, def.value, near, c, classApplies, k)
      ensures !r.Placed? ==> Extends(old(store), store)
      ensures NewHoldOnly(store, old(balloons), balloons, r.Placed?, c)
      ensures r.Placed? ==> PlacedOnly(old(store), store, old(balloons), r.id, c) && r.id in balloons && def == Some(store[r.id].def)
      ensures r.Placed? ==> HasRoom(store, r.id, Demand(cache, store[r.id].containers))
    {
      hide Sound, Base, Tidy, Fresh, AllServed, IsAssigned, Separate, HasRoom, ChosenIn, FillChain, FlatType, Structure, IsOutcome, HasCpus,
           Scene.Applies, Scene.Stops, Scene.IsFirst,
           Extends, SameRoster, PlacedOnly, NewHoldOnly, Demand, Requested;
      ValidIsInStore();
      NoneListed(store, balloons, c);
      ExtendsItself(store);
      k := 0;
      if preserve {
        return Preserved, k;
      }
      if def.None? {
        return Failed(NoType), k;
      }
      var chosen, stop;
      chosen, stop, k := AllocateBalloonOfDef(def.value, near, Request(cache, c), classApplies);
      ValidIsInStore();
      ListedEmpty(store, old(balloons), balloons, c);
      if chosen.None? {
        if TreeOk() {
          NoneOutcome(old(Now()), def.value, near, c, classApplies, k, stop);
        }
        return Failed(if stop.Some? then stop.value else NoBalloon), k;
      }
      ghost var start, startFree := store, freeCpus;
      AssignedSame(old(store), start, old(balloons), balloons, c);
      var ok, sized := PlaceInto(c, chosen.value);
      AfterPlacing(old(store), start, sized, old(balloons), balloons, chosen.value, c);
      r := if ok then Placed(chosen.value) else Failed(NoCpus(chosen.value));
      if TreeOk() {
        ChosenOutcome(old(Now()), start, def.value, near, c, classApplies, k, chosen.value, r, startFree);
      }
      if ok && old(IsAssigned(store, balloons, c)) {
        PlacedTwice(old(store), store, old(balloons), balloons, chosen.value, c);
      }
    }

    lemma NoneOutcome(before: Scene, def: Def, near: Relatives, c: Ctr, classApplies: bool, k: nat, stop: Option<Cause>)
      requires before.IsFirst(def, near, Request(before.cache, c), classApplies, k)
      requires k == |FillChain(def)| <==> stop.None?
      requires stop.Some? ==> before.Stops(def, FillChain(def)[k], near, Request(before.cache, c), classApplies)
      requires stop.Some? ==> stop.value == if FillChain(def)[k] == SamePod then PodUnknown else ClassRefused
      ensures IsOutcome(before, Failed(if stop.Some? then stop.value else NoBalloon), def, near, c, classApplies, k)
    {
      hide Scene.Applies, Scene.Stops, FillChain;
    }

    /** Whether the chosen balloon has CPUs follows from what there was before. */
    lemma ChosenOutcome(before: Scene, start: Store, def: Def, near: Relatives, c: Ctr, classApplies: bool, k: nat, best: Id,
                        r: Placement, free: CpuSet)
      requires Structure(before.store, before.top) && before.IsFirst(def, near, Request(before.cache, c), classApplies, k)
      requires k < |FillChain(def)| && !before.Stops(def, FillChain(def)[k], near, Request(before.cache, c), classApplies)
      requires ChosenIn(before, def, FillChain(def)[k], near, Request(before.cache, c), best, start, free)
      requires r == Placed(best) || r == Failed(NoCpus(best))
      requires r.Placed? <==> HasCpus(start, best, Demand(before.cache, start[best].containers + [c]), |free|)
      ensures IsOutcome(before, r, def, near, c, classApplies, k)
    {
      hide Structure, HasCpus, Scene.NewHasCpus, Scene.Applies, Scene.Stops, Suits, FillChain;
      if FillChain(def)[k] != FillNewBalloon || HasEmpty(before.store, before.top, def) {
        assert SameBalloon(before.store[best], start[best]);
        ComponentsStay(before.store, before.store, before.top, best);
        HasCpusStays(before.store, start, best, Demand(before.cache, start[best].containers + [c]), |free|);
      } else {
        assert start[best].containers + [c] == [c];
        RequestedOneMore(before.cache, [], c);
        assert [] + [c] == [c];
      }
    }

    /**
     A container of a plain type for which a listed balloon has room, inflated if need be, is placed. The methods of the
     type try balloons there are first, the pod is known if it matters, and a CPU is free or balloons of the type have some.
     */
    lemma RoomIsUsed(def: Def, near: Relatives, c: Ctr, classApplies: bool, r: Placement, k: nat, t: Id)
      requires Valid() && IsOutcome(Now(), r, def, near, c, classApplies, k)
      requires def.components == [] && !def.preferNew && !def.perNamespace && (near.pod.Some? || def.spreadPods)
      requires freeCpus != {} || forall u :: u in balloons && store[u].def == def ==> store[u].cpus != {}
      requires t in balloons && store[t].def == def && MaxFreeMilli(cache, store, store[t], freeCpus) >= Request(cache, c)
      ensures r.Placed?
    {
      hide IsOutcome;
      forall u | u in balloons && store[u].def == def ensures store[u].Plain() && WithinLimits(store[u]) {
        assert Typed(store, store[u]);
        assert u in LeavesOf(store, u) && u in Leaves(store, balloons);
      }
      RoomMeansPlaced(Now(), r, def, near, c, classApplies, k, t);
    }

    /** Grows a balloon for one more container if need be, and puts the container there. */
    method PlaceInto(c: Ctr, id: Id) returns (ok: bool, ghost sized: Store)
      requires Valid() && id in balloons
      modifies this`freeCpus, this`store, this`pins, this`undisturbed, this`placedOnce
      ensures Valid() && SameRoster(old(store), sized)
      ensures TreeOk() ==> (ok <==> HasCpus(old(store), id, Demand(cache, old(store)[id].containers + [c]), |old(freeCpus)|))
      ensures placedOnce == (old(placedOnce) && !(ok && old(IsAssigned(store, balloons, c))))
      ensures store == if ok then WithContainers(sized, id, sized[id].containers + [c]) else sized
      ensures ok ==> HasRoom(store, id, Demand(cache, store[id].containers))
    {
      hide Sound, Base, Tidy, Serves, AllServed, ServedBut, IsAssigned, FitsRequest, Demand, Requested, Fitted, Structure, CanResize;
      ValidIsInStore();
      AllServedBut(cache, store, balloons, id);
      var requested := RequestedMilliCpus(id);
      var milliCpus := Max(1, Request(cache, c) + requested);
      DemandWithOneMore(cache, store[id].containers, c);
      sized := store;
      if store[id].AvailMilliCpus() < milliCpus {
        ok := ResizeListed(id, milliCpus);
        sized := store;
        if !ok {
          GrownKeepsServed(old(store), store, balloons, cache);
          return;
        }
        assert SameBalloon(old(store)[id], store[id]);
        ListedIsFitted(id, milliCpus);
        NoneListed(store, balloons, c);
        AssignedSame(old(store), store, balloons, balloons, c);
      }
      BigEnoughServes(cache, store, store[id], c, milliCpus);
      ContainersKeepFit(store, id, store[id].containers + [c], milliCpus);
      AssignContainer(c, id);
      ok := true;
    }

    /** Empties a balloon, and deletes it unless its type must have it. */
    method FreeBalloon(id: Id)
      requires Valid() && id in balloons
      modifies this`balloons, this`freeCpus, this`store
      ensures Valid() && store == WithContainers(old(store), id, [])
      ensures balloons == if |OfDef(old(store), old(balloons), old(store)[id].def)| > old(store)[id].def.minBalloons
                          then Without(old(balloons), id) else old(balloons)
    {
      hide Numbered, Enough, RightPins, LimitsHold, SharesFree, Within, CoresAgree, AllServed, Partition, IsUnion, CpuTree.IsTree,
           AllEven, AllTyped, OfDef;
      KeepContainers(id, []);
      SameCounts(old(store), id, []);
      var same := BalloonsByDef(store[id].def);
      if |same| > store[id].def.minBalloons {
        UnlistKeepsSound(store, balloons, applied, id);
        UnlistKeepsServed(cache, store, balloons, id);
        ListedIsSizable(id);
        DeleteBalloon(id, Leaves(store, balloons));
      }
    }

    lemma SameCounts(before: Store, id: Id, containers: seq<Ctr>)
      requires id in before
      ensures OfDef(WithContainers(before, id, containers), balloons, before[id].def) == OfDef(before, balloons, before[id].def)
    {
    }

    /** Removes a container from those of a balloon. */
    method RemoveString(containers: seq<Ctr>, c: Ctr) returns (r: seq<Ctr>)
      ensures multiset(r) == multiset(containers) - multiset{c}
      ensures forall d :: d in r ==> d in containers
      ensures Requested(cache, r) <= Requested(cache, containers)
    {
      for i := 0 to |containers|
        invariant c !in containers[..i]
      {
        if containers[i] == c {
          RemovedIsGone(containers, i);
          RemovedRequest(cache, containers, i);
          return RemoveAt(containers, i);
        }
      }
      assert containers[..|containers|] == containers;
      assert c !in multiset(containers);
      r := containers;
    }

    /** Takes a container out of its balloon, if it is in one. */
    method ReleaseResources(c: Ctr) returns (ok: bool, resized: bool)
      requires Valid()
      modifies this`balloons, this`freeCpus, this`store, this`pins, this`undisturbed
      ensures Valid()
      ensures !old(IsAssigned(store, balloons, c)) ==>
                store == old(store) && balloons == old(balloons) && freeCpus == old(freeCpus) && pins == old(pins)
      ensures old(IsAssigned(store, balloons, c)) ==>
                exists id :: ReleasedFrom(TreeOk(), old(Now()), Now(), c, id, resized)
    {
      hide Sound, Base, Tidy, AllServed, DismissedOnly, Released, Requested, SameRoster, CpuTree.IsTree, CanResize, Demand, ResizedIff, OfDef, Without, IsAssigned;
      ValidIsInStore();
      var found := BalloonByContainer(c);
      if found.None? {
        return true, false;
      }
      var id := found.value;
      var containers := RemoveString(store[id].containers, c);
      ghost var kept, deflated := WithContainers(store, id, containers), store;
      ok, resized, deflated := Dismiss(id, containers);
      Dismissed(old(store), containers, kept, deflated, store, old(balloons), balloons, id, c);
      if TreeOk() {
        KeptThenResized(old(store), containers, kept, deflated, store, id, |old(freeCpus)|, resized);
      }
      assert ReleasedFrom(TreeOk(), old(Now()), Now(), c, id, resized);
    }

    /** Leaves a balloon these containers, and resizes it for them or deflates and perhaps deletes it. */
    method Dismiss(id: Id, containers: seq<Ctr>) returns (ok: bool, resized: bool, ghost deflated: Store)
      requires Valid() && id in balloons && multiset(containers) <= multiset(store[id].containers)
      requires Requested(cache, containers) <= Requested(cache, store[id].containers)
      modifies this`balloons, this`freeCpus, this`store, this`pins, this`undisturbed
      ensures Valid() && SameRoster(WithContainers(old(store), id, containers), deflated) && Released(cache, store, id, resized)
      ensures store == deflated || (containers == [] && store == WithContainers(deflated, id, []))
      ensures var kept := WithContainers(old(store), id, containers);
              balloons == if containers == [] && |OfDef(kept, old(balloons), kept[id].def)| > kept[id].def.minBalloons
                          then Without(old(balloons), id) else old(balloons)
      ensures TreeOk() ==> (resized <==> CanResize(WithContainers(old(store), id, containers), id,
                                                   if containers == [] then 0 else Demand(cache, containers), |old(freeCpus)|))
      ensures TreeOk() && (old(store)[id].Plain() || containers == []) ==> resized
    {
      hide Sound, Base, Tidy, AllServed, Released, Requested, SameRoster, CpuTree.IsTree, CanResize, Demand, OfDef, Without;
      KeepContainers(id, containers);
      if containers == [] {
        resized, deflated := DeflateAndFree(id);
        ok := true;
      } else {
        resized := Trim(id);
        ok, deflated := resized, store;
      }
    }

    lemma KeptThenResized(before: Store, containers: seq<Ctr>, kept: Store, deflated: Store, after: Store, id: Id, free: nat, resized: bool)
      requires id in before && kept == WithContainers(before, id, containers) && SameRoster(kept, deflated)
      requires after == deflated || (after == WithContainers(deflated, id, []) && containers == [])
      requires resized <==> CanResize(kept, id, if containers == [] then 0 else Demand(cache, containers), free)
      requires before[id].Plain() || containers == [] ==> resized
      ensures ResizedIff(cache, before, after, id, free, resized)
    {
      hide CanResize, Demand;
      assert SameBalloon(kept[id], deflated[id]);
      ContainersKeepCpus(before, id, containers, if containers == [] then 0 else Demand(cache, containers), free);
    }

    lemma ListedCanShrink(id: Id)
      requires Valid() && id in balloons
      ensures id in store && CanResize(store, id, 0, |freeCpus|)
      ensures store[id].Plain() && store[id].containers != [] ==>
                CanResize(store, id, Demand(cache, store[id].containers), |freeCpus|)
    {
      hide CanResize, Demand;
      if store[id].Plain() {
        assert id in LeavesOf(store, id) && id in Leaves(store, balloons);
      }
      CanShrink(cache, store, id, |freeCpus|);
    }

    /** Deflates an empty balloon as far as possible and frees it. */
    method DeflateAndFree(id: Id) returns (resized: bool, ghost deflated: Store)
      requires Valid() && id in balloons && store[id].containers == []
      modifies this`balloons, this`freeCpus, this`store, this`pins, this`undisturbed
      ensures Valid() && SameRoster(old(store), deflated) && store == WithContainers(deflated, id, [])
      ensures balloons == if |OfDef(old(store), old(balloons), old(store)[id].def)| > old(store)[id].def.minBalloons
                          then Without(old(balloons), id) else old(balloons)
      ensures Released(cache, store, id, resized)
      ensures TreeOk() ==> resized && CanResize(old(store), id, 0, |old(freeCpus)|)
    {
      hide Sound, Base, Tidy, Serves, ServedBut, AllServed, FitsRequest, Requested, Without, OfDef, CpuTree.IsTree, CanResize;
      ListedCanShrink(id);
      ValidIsInStore();
      AllServedBut(cache, store, balloons, id);
      resized := ResizeListed(id, 0);
      assert SameBalloon(old(store)[id], store[id]);
      deflated := store;
      ExtendsCounts(old(store), store, balloons, {});
      EmptyIsServed(cache, store, balloons, id);
      ContainersKeepFit(store, id, [], 0);
      FreeBalloon(id);
    }

    /** Resizes a balloon to what its containers call for, if possible. */
    method Trim(id: Id) returns (resized: bool)
      requires Valid() && id in balloons && store[id].containers != []
      modifies this`freeCpus, this`store, this`pins, this`undisturbed
      ensures Valid() && SameRoster(old(store), store) && Released(cache, store, id, resized)
      ensures TreeOk() ==> (resized <==> CanResize(old(store), id, Demand(cache, old(store)[id].containers), |old(freeCpus)|))
      ensures TreeOk() && old(store)[id].Plain() ==> resized
    {
      hide Sound, Base, Tidy, Serves, ServedBut, AllServed, FitsRequest, Requested, CpuTree.IsTree, CanResize;
      ListedCanShrink(id);
      ValidIsInStore();
      AllServedBut(cache, store, balloons, id);
      var requested := RequestedMilliCpus(id);
      resized := ResizeListed(id, Max(1, requested));
      assert SameBalloon(old(store)[id], store[id]);
      if resized {
        ListedIsFitted(id, Max(1, requested));
        SizedServes(cache, store, balloons, id, Max(1, requested));
      } else {
        GrownKeepsServed(old(store), store, balloons, cache);
      }
    }

    lemma Dismissed(before: Store, containers: seq<Ctr>, kept: Store, resized: Store, after: Store,
                    top: seq<Id>, top': seq<Id>, id: Id, c: Ctr)
      requires id in top && InStore(before, top) && c in before[id].containers && SameRoster(kept, resized)
      requires kept == WithContainers(before, id, containers)
      requires after == resized || after == WithContainers(resized, id, [])
      requires multiset(containers) == multiset(before[id].containers) - multiset{c}
      requires after != resized ==> containers == []
      requires top' == if containers == [] && |OfDef(kept, top, kept[id].def)| > kept[id].def.minBalloons then Without(top, id) else top
      ensures DismissedOnly(before, after, top, top', id, c)
    {
      WithoutMembers(top, id);
      assert SameBalloon(kept[id], resized[id]);
      assert OfDef(kept, top, kept[id].def) == OfDef(before, top, before[id].def);
      forall t | t in top && t != id ensures t in top' && after[t].containers == before[t].containers {
        assert SameBalloon(kept[t], resized[t]);
      }
    }

    /** Releases and allocates many containers at once, one after the other. */
    method Sync(add: seq<Order>, del: seq<Ctr>) returns (ghost trace: seq<Scene>)
      requires Valid() && forall i :: 0 <= i < |add| && add[i].def.Some? ==> FlatType(defs, add[i].def.value)
      modifies this`balloons, this`freeCpus, this`store, this`pins, this`next, this`undisturbed, this`placedOnce
      ensures Valid()
      ensures |trace| == |del| + |add| + 1 && trace[0] == old(Now()) && trace[|trace|-1] == Now()
      ensures forall i :: 0 <= i < |del| ==> ReleaseStep(TreeOk(), trace[i], trace[i+1], del[i])
      ensures forall i :: 0 <= i < |add| ==> AllocateStep(TreeOk(), trace[|del|+i], trace[|del|+i+1], add[i])
      ensures old(placedOnce) && old(OrdersAreCovered(add, del)) ==> placedOnce
      ensures old(placedOnce) && old(OrdersAreCovered(add, del)) ==>
                forall c :: c in del && !IsOrdered(add, c) ==> !IsAssigned(store, balloons, c)
    {
      hide Sound, Base, AllServed, Tidy, Fresh, FlatType, IsAssigned, Structure, Separate, ReleaseStep, AllocateStep, CpuTree.IsTree;
      ghost var once := placedOnce && OrdersAreCovered(add, del);
      trace := ReleaseAll(add, del);
      ghost var released := trace;
      for i := 0 to |add|
        invariant Valid() && (once ==> placedOnce && OrdersAreNew(add[i..]))
        invariant |trace| == |del| + i + 1 && trace[|del|+i] == Now() && trace[..|del|+1] == released
        invariant forall j :: 0 <= j < i ==> AllocateStep(TreeOk(), trace[|del|+j], trace[|del|+j+1], add[j])
        invariant once ==> forall c :: c in del && !IsOrdered(add, c) ==> !IsAssigned(store, balloons, c)
      {
        ghost var before, top := store, balloons;
        ValidIsInStore();
        assert add[i..][0] == add[i] && add[i..][1..] == add[i+1..];
        var r, k := AllocateResources(add[i].c, add[i].preserve, add[i].def, add[i].near, add[i].classApplies);
        IsAllocateStep(TreeOk(), trace[|del|+i], Now(), add[i], r, k);
        trace := trace + [Now()];
        if once {
          StillNewAfterAllocate(add[i..], before, top, r);
          forall c | c in del && !IsOrdered(add, c) ensures !IsAssigned(store, balloons, c) {
            assert IsOrdered(add, add[i].c);
            StaysOut(before, top, r, add[i].c, c);
          }
        }
      }
      forall i | 0 <= i < |del| ensures ReleaseStep(TreeOk(), trace[i], trace[i+1], del[i]) {
        assert trace[i] == trace[..|del|+1][i] && trace[i+1] == trace[..|del|+1][i+1];
      }
    }

    ghost predicate IsOrdered(add: seq<Order>, c: Ctr) {
      exists i :: 0 <= i < |add| && add[i].c == c
    }

    lemma IsAllocateStep(treeOk: bool, w: Scene, w': Scene, o: Order, r: Placement, k: nat)
      requires w'.defs == w.defs && w'.cache == w.cache && Allocated(treeOk, w, w', o, r, k)
      ensures AllocateStep(treeOk, w, w', o)
    {
    }

    lemma StaysOut(before: Store, top: seq<Id>, r: Placement, placed: Ctr, c: Ctr)
      requires InStore(before, top) && !IsAssigned(before, top, c) && c != placed
      requires r.Placed? ==> PlacedOnly(before, store, top, r.id, placed)
      requires !r.Placed? ==> Extends(before, store)
      requires NewHoldOnly(store, top, balloons, r.Placed?, placed)
      ensures !IsAssigned(store, balloons, c)
    {
      if r.Placed? {
        OthersUnassignedStill(before, store, top, balloons, r.id, placed, c);
      } else {
        UnassignedStill(before, store, top, balloons, c);
      }
    }

    /** Releases containers one after the other. */
    method ReleaseAll(ghost add: seq<Order>, del: seq<Ctr>) returns (ghost trace: seq<Scene>)
      requires Valid()
      modifies this`balloons, this`freeCpus, this`store, this`pins, this`undisturbed
      ensures Valid() && |trace| == |del| + 1 && trace[0] == old(Now()) && trace[|del|] == Now()
      ensures forall i :: 0 <= i < |del| ==> ReleaseStep(TreeOk(), trace[i], trace[i+1], del[i])
      ensures placedOnce && old(OrdersAreCovered(add, del)) ==> OrdersAreNew(add)
      ensures placedOnce ==> forall c :: c in del ==> !IsAssigned(store, balloons, c)
    {
      hide Sound, Base, AllServed, Tidy, Fresh, IsAssigned, Structure, Separate, ReleaseStep, DismissedOnly, Released, ResizedIff,
           CpuTree.IsTree;
      trace := [Now()];
      for i := 0 to |del|
        invariant Valid() && |trace| == i + 1 && trace[0] == old(Now()) && trace[i] == Now()
        invariant forall j :: 0 <= j < i ==> ReleaseStep(TreeOk(), trace[j], trace[j+1], del[j])
        invariant placedOnce && old(OrdersAreCovered(add, del)) ==> OrdersAreCovered(add, del[i..])
        invariant placedOnce ==> forall j :: 0 <= j < i ==> !IsAssigned(store, balloons, del[j])
      {
        ghost var before, top := store, balloons;
        ValidIsInStore();
        assert del[i..] == [del[i]] + del[i+1..];
        if placedOnce {
          PlacedOnceIsSeparate();
        }
        var ok, resized := ReleaseResources(del[i]);
        IsReleaseStep(TreeOk(), trace[i], Now(), del[i], resized);
        trace := trace + [Now()];
        if placedOnce {
          forall c | c == del[i] || !IsAssigned(before, top, c) ensures !IsAssigned(store, balloons, c) {
            StaysReleased(before, top, del[i], c);
          }
          if old(OrdersAreCovered(add, del)) {
            CoveredAfterRelease(add, del[i+1..], before, top, del[i]);
          }
        }
      }
      assert del[|del|..] == [];
    }

    lemma IsReleaseStep(treeOk: bool, w: Scene, w': Scene, c: Ctr, resized: bool)
      requires w'.defs == w.defs && w'.cache == w.cache
      requires !IsAssigned(w.store, w.top, c) ==> w' == w
      requires IsAssigned(w.store, w.top, c) ==> exists id :: ReleasedFrom(treeOk, w, w', c, id, resized)
      ensures ReleaseStep(treeOk, w, w', c)
    {
      hide IsAssigned, ReleasedFrom;
    }

    lemma StaysReleased(before: Store, top: seq<Id>, released: Ctr, c: Ctr)
      requires InStore(before, top) && Separate(before, top) && (c == released || !IsAssigned(before, top, c))
      requires !IsAssigned(before, top, released) ==> store == before && balloons == top
      requires IsAssigned(before, top, released) ==> exists id :: DismissedOnly(before, store, top, balloons, id, released)
      ensures !IsAssigned(store, balloons, c)
    {
      hide IsAssigned, Separate, DismissedOnly;
      if IsAssigned(before, top, released) {
        var id :| DismissedOnly(before, store, top, balloons, id, released);
        DismissedIsGone(before, store, top, balloons, id, released);
        if !IsAssigned(before, top, c) {
          DismissedUnassignedStill(before, store, top, balloons, id, released, c);
        }
      }
    }

    /** Each container to be placed is to be placed once, and to be released before if it is in a balloon. */
    ghost predicate OrdersAreCovered(add: seq<Order>, del: seq<Ctr>)
      reads this
    {
      && (forall i :: 0 <= i < |add| && IsAssigned(store, balloons, add[i].c) ==> add[i].c in del)
      && (forall i, j :: 0 <= i < j < |add| ==> add[i].c != add[j].c)
    }

    lemma PlacedOnceIsSeparate()
      requires Valid() && placedOnce
      ensures Separate(store, balloons)
    {
    }

    /** Containers to be placed are in no balloon, and each is to be placed once. */
    ghost predicate OrdersAreNew(add: seq<Order>)
      reads this
    {
      && (forall i :: 0 <= i < |add| ==> !IsAssigned(store, balloons, add[i].c))
      && (forall i, j :: 0 <= i < j < |add| ==> add[i].c != add[j].c)
    }

    lemma ValidIsInStore()
      requires Valid()
      ensures InStore(store, balloons) && Structure(store, balloons)
    {
    }

    lemma CoveredAfterRelease(add: seq<Order>, del: seq<Ctr>, before: Store, top: seq<Id>, c: Ctr)
      requires InStore(before, top) && Separate(before, top)
      requires forall i :: 0 <= i < |add| && IsAssigned(before, top, add[i].c) ==> add[i].c in [c] + del
      requires forall i, j :: 0 <= i < j < |add| ==> add[i].c != add[j].c
      requires !IsAssigned(before, top, c) ==> store == before && balloons == top
      requires IsAssigned(before, top, c) ==> exists id :: DismissedOnly(before, store, top, balloons, id, c)
      ensures OrdersAreCovered(add, del)
    {
      hide IsAssigned, Separate, DismissedOnly, CpuTree.IsTree;
      if IsAssigned(before, top, c) {
        var id :| DismissedOnly(before, store, top, balloons, id, c);
        DismissedIsGone(before, store, top, balloons, id, c);
        forall i | 0 <= i < |add| && IsAssigned(store, balloons, add[i].c) ensures add[i].c in del {
          if !IsAssigned(before, top, add[i].c) {
            DismissedUnassignedStill(before, store, top, balloons, id, c, add[i].c);
          }
        }
      }
    }

    lemma StillNewAfterAllocate(add: seq<Order>, before: Store, top: seq<Id>, r: Placement)
      requires InStore(before, top) && add != []
      requires forall i :: 0 <= i < |add| ==> !IsAssigned(before, top, add[i].c)
      requires forall i, j :: 0 <= i < j < |add| ==> add[i].c != add[j].c
      requires r.Placed? ==> PlacedOnly(before, store, top, r.id, add[0].c)
      requires !r.Placed? ==> Extends(before, store)
      requires NewHoldOnly(store, top, balloons, r.Placed?, add[0].c)
      ensures OrdersAreNew(add[1..])
    {
      forall i | 1 <= i < |add| ensures !IsAssigned(store, balloons, add[i].c) {
        if r.Placed? {
          OthersUnassignedStill(before, store, top, balloons, r.id, add[0].c, add[i].c);
        } else {
          UnassignedStill(before, store, top, balloons, add[i].c);
        }
      }
    }

    // ---- configuration

    /** A policy with no CPUs and no balloons, to be configured. */
    constructor (topo: Topo, nodes: seq<CpuTree.Node>, ghost height: nat, levels: map<int, seq<CpuSet>>, system: Cpus, isolated: CpuSet, pinCpu: bool)
      requires topo.WellFormed()
      ensures Valid() && managed == {} && balloons == [] && undisturbed && placedOnce
    {
      this.topo, this.nodes, this.height, this.levels, this.system := topo, nodes, height, levels, system;
      this.isolated, this.pinCpu := isolated, pinCpu;
      cache, pins, allowed, freeCpus, defs := map[], map[], {}, {}, [];
      store, balloons, next, managed, applied, undisturbed, placedOnce := map[], [], 0, {}, {}, true, true;
    }

    /** Checks names and limits of balloon types. */
    method ValidateConfig(types: seq<Def>) returns (ok: bool)
      ensures ok <==> WellConfigured(types)
    {
      var seen: set<string> := {};
      for i := 0 to |types|
        invariant WellConfigured(types[..i])
        invariant forall name :: name in seen <==> exists j :: 0 <= j < i && types[j].name == name
      {
        var def := types[i];
        assert types[..i+1] == types[..i] + [def];
        if def.name == "" || def.name in seen || !def.LimitsAgree() || !def.CountsAgree() {
          return false;
        }
        seen := seen + {def.name};
      }
      assert types[..|types|] == types;
      ok := true;
    }

    /** Creates the balloons that a type must always have. */
    method ApplyBalloonDef(def: Def, ghost types: set<Def>) returns (ok: bool)
      requires Valid() && FlatType(defs, def) && AllOf(store, balloons, types) && def !in types
      modifies this`balloons, this`freeCpus, this`store, this`pins, this`next, this`undisturbed, this`applied
      ensures Valid() && AllOf(store, balloons, types + {def})
      ensures applied == if ok then old(applied) + {def} else old(applied)
      ensures !ok && TreeOk() ==> !CanCreate(defs, store, balloons, def, |freeCpus|)
      ensures ok && def.components == [] ==> |freeCpus| + def.minBalloons * def.minCpus == |old(freeCpus)|
      ensures TreeOk() && def.components == [] && def.CountsAgree() ==> (ok <==> def.minBalloons * def.minCpus <= |old(freeCpus)|)
    {
      hide CoresAgree, Numbered, RightPins, LimitsHold, AllComposed, Within, Partition, SharesFree,
           AllServed, Structure, CpuTree.IsTree, AllEven, AllTyped, CanCreate;
      NoneOf(store, balloons, types, def);
      for k := 0 to def.minBalloons
        invariant Valid() && applied == old(applied) && AllOf(store, balloons, types + {def})
        invariant |OfDef(store, balloons, def)| == k
        invariant def.components == [] ==> |freeCpus| + k * def.minCpus == |old(freeCpus)|
      {
        ghost var before, top, free := store, balloons, freeCpus;
        ValidIsInStore();
        var r := CreateListed(def);
        StillAllOf(before, types + {def}, def, r);
        OneMoreMinimum(k, def);
        if def.CountsAgree() {
          PlainCanCreate(before, top, def, k, |free|);
        }
        if r.None? {
          StillCannotCreate(before, def);
          return false;
        }
      }
      applied := applied + {def};
      ok := true;
    }

    lemma StillAllOf(before: Store, types: set<Def>, def: Def, r: Option<Id>)
      requires Extends(before, store) && def in types
      requires r.None? ==> AllOf(before, balloons, types) && InStore(before, balloons)
      requires r.Some? ==> balloons != [] && r.value == balloons[|balloons|-1] && r.value in store && store[r.value].def == def
      requires r.Some? ==> AllOf(before, balloons[..|balloons|-1], types) && InStore(before, balloons[..|balloons|-1])
      ensures AllOf(store, balloons, types)
    {
      var old' := if r.Some? then balloons[..|balloons|-1] else balloons;
      forall t | t in balloons && t in store ensures store[t].def in types {
        if t in old' {
          assert SameBalloon(before[t], store[t]);
        }
      }
    }

    /** A plain type's balloons can be created, up to those it must have, while there are CPUs for them. */
    lemma PlainCanCreate(before: Store, top: seq<Id>, def: Def, k: nat, free: nat)
      requires |OfDef(before, top, def)| == k < def.minBalloons && def.CountsAgree()
      ensures def.components == [] ==> (CanCreate(defs, before, top, def, free) <==> def.minCpus <= free)
    {
    }

    /** One balloon more takes the minimum once more. */
    lemma OneMoreMinimum(k: nat, def: Def)
      requires k < def.minBalloons
      ensures (k + 1) * def.minCpus == k * def.minCpus + def.minCpus <= def.minBalloons * def.minCpus
    {
      TimesAtMost(k + 1, def.minBalloons, def.minCpus);
    }

    lemma TimesAtMost(m: nat, n: nat, x: nat)
      requires m <= n
      ensures m * x <= n * x
    {
    }

    lemma StillCannotCreate(before: Store, def: Def)
      requires Structure(before, balloons) && Extends(before, store)
      ensures CanCreate(defs, store, balloons, def, |freeCpus|) <==> CanCreate(defs, before, balloons, def, |freeCpus|)
    {
      CanCreateStays(defs, before, store, balloons, def, |freeCpus|);
    }

    /** Forgets all balloons and makes all allowed CPUs free. */
    method StartOver()
      requires topo.WellFormed() && allowed <= topo.Usable() && CoresAgree(system, allowed)
      modifies this`balloons, this`freeCpus, this`store, this`managed, this`applied, this`undisturbed, this`placedOnce
      ensures Valid() && managed == freeCpus == allowed && applied == {} && balloons == []
    {
      hide CoresAgree, Sound, Partition, CpuTree.IsTree;
      NothingIsSound(allowed);
      balloons, store, freeCpus := [], map[], allowed;
      managed, applied, undisturbed, placedOnce := allowed, {}, true, true;
    }

    /** All types are plain. */
    ghost predicate PlainTypes()
      reads this`defs
    {
      forall d :: d in defs ==> d.components == [] && d.CountsAgree()
    }

    /** The types done are the first ones by priority; of plain types, CPUs left are those their minima do not take. */
    ghost predicate AppliedFirst(done: seq<Def>, cpus: nat)
      reads this
    {
      && done <= ByPriority(defs) && applied == Elements(done) && AllOf(store, balloons, applied)
      && (PlainTypes() ==> |freeCpus| + MinTotal(done) == cpus)
    }

    /** Some type in the order of priorities could not get its balloons: all before it have theirs, and there are no CPUs for more. */
    ghost predicate StoppedAt(m: nat, cpus: nat)
      reads this
    {
      && m < |ByPriority(defs)| && applied == Elements(ByPriority(defs)[..m])
      && (TreeOk() ==> !CanCreate(defs, store, balloons, ByPriority(defs)[m], |freeCpus|))
      && (TreeOk() && PlainTypes() ==> MinTotal(ByPriority(defs)[..m]) <= cpus < MinTotal(ByPriority(defs)[..m+1]))
    }

    /** Creates initial balloons of all types, in the order of their priorities. */
    method ApplyAll() returns (ok: bool, ghost m: nat)
      requires Valid() && applied == {} && balloons == [] && Distinct(ByPriority(defs))
      requires forall d :: d in defs ==> FlatType(defs, d)
      modifies this`balloons, this`freeCpus, this`store, this`pins, this`next, this`undisturbed, this`applied
      ensures Valid()
      ensures ok ==> AppliedFirst(ByPriority(defs), |old(freeCpus)|)
      ensures !ok ==> StoppedAt(m, |old(freeCpus)|)
    {
      hide Sound, Base, AllServed, Tidy, Fresh, FlatType, CpuTree.IsTree, CanCreate, MinTotal, OfPriority, AllOf, Distinct, Elements;
      ghost var done: seq<Def> := [];
      NothingDone();
      m := 0;
      var priorities := PRIORITIES;
      for k := 0 to |priorities|
        invariant Valid() && AppliedFirst(done, |old(freeCpus)|) && done == OfFirst(defs, k)
      {
        NoTypesYet(priorities[k], done);
        for i := 0 to |defs|
          invariant Valid() && AppliedFirst(done, |old(freeCpus)|)
          invariant done == OfFirst(defs, k) + OfPriority(defs[..i], priorities[k])
        {
          OfPriorityStep(defs, priorities[k], i);
          DoneIsPrefix(defs, k, i + 1);
          if defs[i].priority == priorities[k] {
            assert defs[i] in defs;
            NextType(done, defs[i]);
            ghost var free := |freeCpus|;
            ok := ApplyBalloonDef(defs[i], applied);
            ghost var more := done + [defs[i]];
            NextDone(done, defs[i], ok, |old(freeCpus)|, free);
            if !ok {
              m := |done|;
              return;
            }
            done := more;
          }
          assert done == OfFirst(defs, k) + OfPriority(defs[..i+1], priorities[k]);
        }
        assert defs[..|defs|] == defs;
      }
      ok := true;
    }

    lemma NextType(done: seq<Def>, d: Def)
      requires Distinct(ByPriority(defs)) && done + [d] <= ByPriority(defs)
      ensures d !in Elements(done)
    {
      var order := ByPriority(defs);
      assert order[|done|] == (done + [d])[|done|] == d;
      forall i | 0 <= i < |done| ensures done[i] != d {
        assert order[i] == (done + [d])[i] == done[i];
      }
    }

    /** What is known after another type has been tried. */
    lemma NextDone(done: seq<Def>, d: Def, ok: bool, cpus: nat, free: nat)
      requires done + [d] <= ByPriority(defs) && d in defs
      requires applied == if ok then Elements(done) + {d} else Elements(done)
      requires AllOf(store, balloons, Elements(done) + {d}) && (PlainTypes() ==> free + MinTotal(done) == cpus)
      requires !ok && TreeOk() ==> !CanCreate(defs, store, balloons, d, |freeCpus|)
      requires ok && d.components == [] ==> |freeCpus| + d.minBalloons * d.minCpus == free
      requires TreeOk() && d.components == [] && d.CountsAgree() ==> (ok <==> d.minBalloons * d.minCpus <= free)
      ensures ok ==> AppliedFirst(done + [d], cpus)
      ensures !ok ==> StoppedAt(|done|, cpus)
    {
      hide AllOf, CanCreate, CpuTree.IsTree, MinTotal, ByPriority;
      var order := ByPriority(defs);
      MinOneMore(done, d);
      assert Elements(done + [d]) == Elements(done) + {d};
      assert order[..|done|] == done && order[..|done|+1] == done + [d];
    }

    lemma SharingKeepsTypes(before: Store, types: set<Def>)
      requires Extends(before, store) && InStore(before, balloons) && AllOf(before, balloons, types)
      ensures AllOf(store, balloons, types)
    {
      forall t | t in balloons && t in store ensures store[t].def in types {
        assert SameBalloon(before[t], store[t]);
      }
    }

    /** The whole order takes what the types do, whatever comes first in it less. */
    lemma WholeMinimum(m: nat)
      ensures MinTotal(ByPriority(defs)) == MinTotal(defs) && Elements(ByPriority(defs)) == Elements(defs)
      ensures m < |ByPriority(defs)| ==> MinTotal(ByPriority(defs)[..m+1]) <= MinTotal(defs)
    {
      MinByPriority(defs);
      ByPriorityMembers(defs);
      if m < |ByPriority(defs)| {
        MinPrefix(ByPriority(defs)[..m+1], ByPriority(defs));
      }
    }

    lemma NothingDone()
      ensures MinTotal([]) == 0 && Elements<Def>([]) == {} && AllOf(store, [], {})
    {
    }

    lemma NoTypesYet(priority: CpuPriority, done: seq<Def>)
      ensures done + OfPriority(defs[..0], priority) == done
    {
    }

    /**
     Takes a new configuration into use. Allowed CPUs and types change before they are checked, so a
     rejected configuration leaves CPUs divided up as its allowed CPUs are only if these did not change.
     */
    method SetConfig(newAllowed: CpuSet, types: seq<Def>, otherwiseValid: bool) returns (r: Configured)
      requires Valid() && newAllowed <= topo.Usable() && CoresAgree(system, newAllowed)
      requires forall d :: d in types ==> FlatType(types, d)
      modifies this`allowed, this`defs, this`balloons, this`freeCpus, this`store, this`pins, this`next,
        this`managed, this`applied, this`undisturbed, this`placedOnce
      ensures Valid() && allowed == newAllowed && defs == types
      ensures r.Rejected? <==> !(otherwiseValid && WellConfigured(types))
      ensures r.Rejected? ==> store == old(store) && balloons == old(balloons) && freeCpus == old(freeCpus) && pins == old(pins)
      ensures r.Rejected? ==> (Partition(allowed, freeCpus, store, Leaves(store, balloons)) <==> newAllowed == old(managed))
      ensures !r.Rejected? ==> managed == allowed
      ensures r.Applied? ==> Enough(store, balloons, Elements(types)) && SharesIdle(levels, store, balloons, freeCpus - isolated)
      ensures r.Applied? ==> AllOf(store, balloons, Elements(types))
      ensures r.Partial? ==> exists m :: StoppedAt(m, |newAllowed|)
      ensures !r.Rejected? && TreeOk() && PlainTypes() ==> (r.Applied? <==> MinTotal(types) <= |newAllowed|)
    {
      hide CoresAgree, Numbered, RightPins, LimitsHold, AllComposed, Within, Partition, SharesFree,
           AllServed, WellConfigured, FlatType, ReshareAll, SharesIdle, CpuTree.IsTree, CanCreate, PlainTypes, MinTotal,
           ByPriority, Elements, Distinct, AllOf, Structure, AllEven, AllTyped;
      ValidIsInStore();
      allowed, defs := newAllowed, types;
      var ok := ValidateConfig(types);
      if !ok || !otherwiseValid {
        if Partition(allowed, freeCpus, store, Leaves(store, balloons)) {
          PartitionDeterminesManaged(allowed, managed, freeCpus, store, Leaves(store, balloons));
        }
        return Rejected;
      }
      StartOver();
      WellConfiguredIsDistinct(types);
      ghost var m;
      ok, m := ApplyAll();
      WholeMinimum(m);
      if !ok {
        return Partial;
      }
      ReshareSharesIdle(levels, store, balloons, freeCpus - isolated, {});
      ghost var before := store;
      ValidIsInStore();
      ShareAndPin(freeCpus, {});
      SharingKeepsTypes(before, Elements(types));
      r := Applied;
    }

    // ---- containers come and go

    /** The resource manager learns of a container, which is in no balloon yet. */
    method ContainerCreated(c: Ctr, info: Info)
      requires Valid() && !IsAssigned(store, balloons, c)
      modifies this`cache
      ensures Valid() && cache == old(cache)[c := info]
    {
      hide CoresAgree, Numbered, Enough, RightPins, LimitsHold, AllComposed, Within, Partition, SharesFree, Serves, CpuTree.IsTree;
      CacheKeepsServed(cache, cache[c := info], store, balloons);
      if placedOnce {
        CacheKeepsPins(cache, cache[c := info], store, balloons, pinCpu, system, pins);
      }
      cache := cache[c := info];
    }

    /** The resource manager forgets a container, which may still be in a balloon. */
    method ContainerRemoved(c: Ctr)
      requires Valid()
      modifies this`cache
      ensures Valid() && cache == old(cache) - {c}
    {
      hide CoresAgree, Numbered, Enough, RightPins, LimitsHold, AllComposed, Within, Partition, SharesFree, Serves, CpuTree.IsTree;
      CacheKeepsServed(cache, cache - {c}, store, balloons);
      if placedOnce {
        CacheKeepsPins(cache, cache - {c}, store, balloons, pinCpu, system, pins);
      }
      cache := cache - {c};
    }
  }

  /** Indices of the largest elements, in order, and their value. */
  method Largest(values: seq<int>) returns (indices: seq<nat>, value: int)
    ensures values != [] ==> indices != []
    ensures forall k :: k in indices <==> 0 <= k < |values| && values[k] == value && forall j :: 0 <= j < |values| ==> values[j] <= value
    ensures forall j :: 0 <= j < |values| ==> values[j] <= value
    ensures forall i, j :: 0 <= i < j < |indices| ==> indices[i] < indices[j]
  {
    indices, value := [], 0;
    for i := 0 to |values|
      invariant i > 0 ==> indices != []
      invariant forall k :: k in indices <==> 0 <= k < i && values[k] == value
      invariant forall j :: 0 <= j < i ==> values[j] <= value
      invariant forall i, j :: 0 <= i < j < |indices| ==> indices[i] < indices[j]
    {
      if indices == [] {
        indices, value := indices + [i], values[i];
      } else if values[i] == value {
        assert forall j :: 0 <= j < |indices| ==> indices[j] in indices;
        indices := indices + [i];
      } else if values[i] > value {
        indices, value := [i], values[i];
      }
    }
  }
}

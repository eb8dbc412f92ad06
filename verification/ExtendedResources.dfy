/**
 The patch that brings a node's capacity in line with the desired extended resources
 (pkg/agent/node-extended-resources.go), applied as a JSON Merge Patch.
 */
module ExtendedResources {
  import opened Options

  /** Desired state: published quantities by name, and names or patterns (None) to be removed. */
  type Desired = map<string, Option<string>>

  type Capacity = map<string, string>

  /** Changed capacities by name; None removes one. */
  type Patch = map<string, Option<string>>

  /** Glob matching of a name against a pattern. */
  type Glob = (string, string) -> bool

  const NRI_GLOB := "*.nri.io/*"

  predicate IsNri(glob: Glob, name: string) {
    glob(NRI_GLOB, name)
  }

  predicate HasWildcard(name: string) {
    '*' in name
  }

  // ---- what is asked for

  predicate Publishes(want: Desired, glob: Glob, name: string) {
    name in want && want[name].Some? && !HasWildcard(name) && IsNri(glob, name)
  }

  function Published(want: Desired, glob: Glob): Capacity {
    map name | name in want && Publishes(want, glob, name) :: want[name].value
  }

  predicate RemovesExactly(want: Desired, glob: Glob, name: string) {
    name in want && want[name].None? && !HasWildcard(name) && IsNri(glob, name)
  }

  predicate Owns(want: Desired, glob: Glob, name: string) {
    exists pattern :: pattern in want && want[pattern].None? && HasWildcard(pattern) && glob(pattern, name)
  }

  /** Present names within our domain that are asked away or owned, and not published. */
  function Removed(want: Desired, current: Capacity, glob: Glob): set<string> {
    set name | name in current && IsNri(glob, name) && !Publishes(want, glob, name) &&
               (RemovesExactly(want, glob, name) || Owns(want, glob, name))
  }

  /** The capacity the node should end up with: everything else stays. */
  function Target(want: Desired, current: Capacity, glob: Glob): Capacity {
    (current - Removed(want, current, glob)) + Published(want, glob)
  }

  function PatchFor(want: Desired, current: Capacity, glob: Glob): Patch {
    var publish, removed := Published(want, glob), Removed(want, current, glob);
    Changed(publish, current) +
    (map name | name in removed :: None)
  }

  // ---- how the patch is computed

  /** Sorts the desired state into publications, exact removals and ownership patterns. */
  method Split(want: Desired, glob: Glob) returns (publish: Capacity, exact: set<string>, globs: seq<string>)
    ensures publish == Published(want, glob)
    ensures exact == set name | name in want && RemovesExactly(want, glob, name)
    ensures forall p :: p in globs <==> p in want && want[p].None? && HasWildcard(p)
  {
    publish, exact, globs := map[], {}, [];
    var todo := want.Keys;
    while todo != {}
      invariant todo <= want.Keys
      invariant publish == Published(want - todo, glob)
      invariant exact == set name | name in want && name !in todo && RemovesExactly(want, glob, name)
      invariant forall p :: p in globs <==> p in want && p !in todo && want[p].None? && HasWildcard(p)
      decreases todo
    {
      var name :| name in todo;
      todo := todo - {name};
      if want[name].Some? {
        if !HasWildcard(name) && IsNri(glob, name) {
          publish := publish[name := want[name].value];
        }
      } else if HasWildcard(name) {
        globs := globs + [name];
      } else if IsNri(glob, name) {
        exact := exact + {name};
      }
    }
    assert want - todo == want;
  }

  method MatchesAny(globs: seq<string>, glob: Glob, name: string) returns (matches: bool)
    ensures matches <==> exists p :: p in globs && glob(p, name)
  {
    for i := 0 to |globs|
      invariant forall p :: p in globs[..i] ==> !glob(p, name)
    {
      if glob(globs[i], name) {
        return true;
      }
      assert globs[..i+1] == globs[..i] + [globs[i]];
    }
    assert globs[..|globs|] == globs;
    matches := false;
  }

  method FindRemoved(want: Desired, current: Capacity, glob: Glob, publish: Capacity, exact: set<string>, globs: seq<string>)
    returns (removed: set<string>)
    requires publish == Published(want, glob)
    requires exact == set name | name in want && RemovesExactly(want, glob, name)
    requires forall p :: p in globs <==> p in want && want[p].None? && HasWildcard(p)
    ensures removed == Removed(want, current, glob)
  {
    removed := {};
    var todo := current.Keys;
    while todo != {}
      invariant todo <= current.Keys
      invariant removed == Removed(want, current, glob) - todo
      decreases todo
    {
      var name :| name in todo;
      todo := todo - {name};
      if IsNri(glob, name) && name !in publish {
        var owned := name in exact;
        if !owned {
          owned := MatchesAny(globs, glob, name);
          assert owned <==> Owns(want, glob, name);
        }
        if owned {
          removed := removed + {name};
        }
      }
    }
  }

  /** Published names whose capacity is not yet as wanted. */
  function Changed(publish: Capacity, current: Capacity): Patch {
    map name | name in publish && !(name in current && current[name] == publish[name]) :: Some(publish[name])
  }

  method FindChanged(publish: Capacity, current: Capacity) returns (patch: Patch)
    ensures patch == Changed(publish, current)
  {
    patch := map[];
    var todo := publish.Keys;
    while todo != {}
      invariant todo <= publish.Keys
      invariant patch == Changed(publish, current) - todo
      decreases todo
    {
      var name :| name in todo;
      todo := todo - {name};
      if !(name in current && current[name] == publish[name]) {
        patch := patch[name := Some(publish[name])];
      }
    }
  }

  /** The patch, whatever order the maps are iterated in. */
  method ComputePatch(want: Desired, current: Capacity, glob: Glob) returns (patch: Patch)
    ensures patch == PatchFor(want, current, glob)
  {
    var publish, exact, globs := Split(want, glob);
    var removed := FindRemoved(want, current, glob, publish, exact, globs);
    patch := FindChanged(publish, current);
    patch := patch + map name | name in removed :: None;
  }

  // ---- what applying it does

  function Apply(current: Capacity, patch: Patch): Capacity {
    map name | name in current.Keys + patch.Keys && !(name in patch && patch[name].None?) ::
      if name in patch then patch[name].value else current[name]
  }

  /** The patched capacity is the target: published names set, owned ones gone, nothing else changed. */
  lemma PatchReachesTarget(want: Desired, current: Capacity, glob: Glob)
    ensures Apply(current, PatchFor(want, current, glob)) == Target(want, current, glob)
  {
  }

  /** The target meets the request exactly. */
  lemma TargetMeetsRequest(want: Desired, current: Capacity, glob: Glob, name: string)
    ensures var target := Target(want, current, glob);
            && (Publishes(want, glob, name) ==> name in target && target[name] == want[name].value)
            && (!IsNri(glob, name) ==> (name in target <==> name in current) &&
                                       (name in target ==> target[name] == current[name]))
            && (name in current && name !in target <==> name in Removed(want, current, glob))
            && (name in target && !Publishes(want, glob, name) ==> name in current && target[name] == current[name])
  {
  }

  /** Once the target is reached, the next round has nothing to do. */
  lemma NextPatchIsEmpty(want: Desired, current: Capacity, glob: Glob)
    ensures PatchFor(want, Target(want, current, glob), glob) == map[]
  {
    assert Removed(want, Target(want, current, glob), glob) == {};
  }

  /** An empty patch is not sent; the node is at the target already. */
  lemma EmptyPatchMeansDone(want: Desired, current: Capacity, glob: Glob)
    ensures PatchFor(want, current, glob) == map[] <==> Target(want, current, glob) == current
  {
    PatchReachesTarget(want, current, glob);
    var patch := PatchFor(want, current, glob);
    if Target(want, current, glob) == current {
      forall name | name in patch ensures false {
        TargetMeetsRequest(want, current, glob, name);
      }
    }
  }

  // ---- JSON Merge Patch, section 2 of RFC 7396

  datatype Json = Null | Leaf(text: string) | Object(members: map<string, Json>)

  function MergePatch(target: Json, patch: Json): Json
    decreases patch
  {
    match patch
    case Object(changes) =>
      var base := if target.Object? then target.members else map[];
      Object(map name | name in base.Keys + changes.Keys && !(name in changes && changes[name].Null?) ::
               if name in changes then MergePatch(if name in base then base[name] else Null, changes[name])
               else base[name])
    case _ => patch
  }

  function CapacityJson(capacity: Capacity): Json {
    Object(map name | name in capacity :: Leaf(capacity[name]))
  }

  function PatchJson(patch: Patch): Json {
    Object(map name | name in patch :: if patch[name].Some? then Leaf(patch[name].value) else Null)
  }

  /** The request body: the changed capacities under status.capacity. */
  function Body(patch: Patch): Json {
    Object(map["status" := Object(map["capacity" := PatchJson(patch)])])
  }

  /** One member of a merged object. */
  lemma MergedMember(base: map<string, Json>, changes: map<string, Json>, name: string)
    ensures var merged := MergePatch(Object(base), Object(changes)).members;
            && (name in merged <==> if name in changes then !changes[name].Null? else name in base)
            && (name in merged ==>
                  merged[name] == if name in changes then MergePatch(if name in base then base[name] else Null, changes[name])
                                  else base[name])
  {
  }

  lemma MergeCapacity(capacity: Capacity, patch: Patch)
    ensures MergePatch(CapacityJson(capacity), PatchJson(patch)) == CapacityJson(Apply(capacity, patch))
  {
    var base, changes := CapacityJson(capacity).members, PatchJson(patch).members;
    var merged, expected := MergePatch(Object(base), Object(changes)).members, CapacityJson(Apply(capacity, patch)).members;
    forall name
      ensures name in merged <==> name in expected
      ensures name in merged ==> merged[name] == expected[name]
    {
      MergedMember(base, changes, name);
    }
    assert merged == expected;
  }

  /** Merging a change of one member replaces that member. */
  lemma MergeOne(base: map<string, Json>, name: string, change: Json)
    requires name in base && !change.Null?
    ensures MergePatch(Object(base), Object(map[name := change])) == Object(base[name := MergePatch(base[name], change)])
  {
    var changes := map[name := change];
    var merged, expected := MergePatch(Object(base), Object(changes)).members, base[name := MergePatch(base[name], change)];
    forall other
      ensures other in merged <==> other in expected
      ensures other in merged ==> merged[other] == expected[other]
    {
      MergedMember(base, changes, other);
    }
    assert merged == expected;
  }

  /** Merging the body into the node changes status.capacity to the target and nothing else. */
  lemma MergeBody(node: Json, want: Desired, current: Capacity, glob: Glob)
    requires node.Object? && "status" in node.members && node.members["status"].Object?
    requires var status := node.members["status"].members;
             "capacity" in status && status["capacity"] == CapacityJson(current)
    ensures var status := node.members["status"].members;
            MergePatch(node, Body(PatchFor(want, current, glob))) ==
            Object(node.members["status" := Object(status["capacity" := CapacityJson(Target(want, current, glob))])])
  {
    var patch := PatchFor(want, current, glob);
    var status := node.members["status"].members;
    MergeCapacity(current, patch);
    PatchReachesTarget(want, current, glob);
    MergeOne(status, "capacity", PatchJson(patch));
    MergeOne(node.members, "status", Object(map["capacity" := PatchJson(patch)]));
  }
}

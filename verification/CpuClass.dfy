/**
 The CPU class handler's deferred enforcement (pkg/resmgr/cpuclass/cpuclass.go): class definitions
 and assignments mark CPUs dirty, and Commit enforces the dirty ones.
 */
module CpuClass {
  import opened CpuSets

  /** A resolved class definition. Equal compares all fields, as equality of values does. */
  datatype ClassDef = ClassDef(
    minFreq: nat, maxFreq: nat, epp: nat, uncoreMinFreq: nat, uncoreMaxFreq: nat,
    governor: string, disabledCstates: seq<string>)

  type Classes = map<string, ClassDef>

  /** CPUs with a class that has a definition. */
  ghost function Managed(defs: Classes, cpuClass: map<int, string>): set<int> {
    set cpu | cpu in cpuClass && cpuClass[cpu] != "" && cpuClass[cpu] in defs
  }

  /** What enforcing every managed CPU from scratch would leave in the hardware. */
  ghost function FullRewrite(defs: Classes, cpuClass: map<int, string>, hardware: map<int, ClassDef>): map<int, ClassDef> {
    hardware + map cpu | cpu in Managed(defs, cpuClass) :: defs[cpuClass[cpu]]
  }

  /** A managed CPU is dirty, or was last enforced with its class's current definition. */
  ghost predicate UpToDate(defs: Classes, cpuClass: map<int, string>, dirty: set<int>, hardware: map<int, ClassDef>) {
    forall cpu :: cpu in Managed(defs, cpuClass) && cpu !in dirty ==>
      cpu in hardware && hardware[cpu] == defs[cpuClass[cpu]]
  }

  /** The hardware after a commit in which writing some CPUs fails. */
  ghost function Committed(defs: Classes, cpuClass: map<int, string>, dirty: set<int>,
                           hardware: map<int, ClassDef>, failing: set<int>): map<int, ClassDef>
  {
    hardware + map cpu | cpu in Managed(defs, cpuClass) * dirty - failing :: defs[cpuClass[cpu]]
  }

  /**
   Committing only the dirty CPUs agrees with enforcing every managed CPU, and leaves all of them
   up to date, exactly if each CPU whose write failed had its current definition before.
   */
  lemma CommitIsFullRewriteIff(defs: Classes, cpuClass: map<int, string>, dirty: set<int>,
                               hardware: map<int, ClassDef>, failing: set<int>)
    requires UpToDate(defs, cpuClass, dirty, hardware)
    ensures var after := Committed(defs, cpuClass, dirty, hardware, failing);
            var harmless := forall cpu :: cpu in Managed(defs, cpuClass) * dirty * failing ==>
                              cpu in hardware && hardware[cpu] == defs[cpuClass[cpu]];
            && (after == FullRewrite(defs, cpuClass, hardware) <==> harmless)
            && (UpToDate(defs, cpuClass, {}, after) <==> harmless)
  {
    var after := Committed(defs, cpuClass, dirty, hardware, failing);
    var full := FullRewrite(defs, cpuClass, hardware);
    forall cpu | cpu in Managed(defs, cpuClass)
      ensures cpu in full && full[cpu] == defs[cpuClass[cpu]]
      ensures cpu in dirty && cpu in failing ==>
                (cpu in after <==> cpu in hardware) && (cpu in after ==> after[cpu] == hardware[cpu])
      ensures !(cpu in dirty && cpu in failing) ==> cpu in after && after[cpu] == defs[cpuClass[cpu]]
    {
    }
    if UpToDate(defs, cpuClass, {}, after) {
      forall cpu
        ensures cpu in after <==> cpu in full
        ensures cpu in after ==> after[cpu] == full[cpu]
      {
        if cpu in Managed(defs, cpuClass) {
          assert cpu !in {};
        }
      }
      SameMap(after, full);
    }
  }

  /** A failed write is forgotten: until its class or the definition changes, the CPU stays as it is. */
  lemma FailedWriteIsNotRetried(defs: Classes, cpuClass: map<int, string>, dirty: set<int>,
                                hardware: map<int, ClassDef>, failing: set<int>, later: set<int>, cpu: int)
    requires cpu in Managed(defs, cpuClass) * dirty * failing
    ensures var after := Committed(defs, cpuClass, dirty, hardware, failing);
            var again := Committed(defs, cpuClass, {}, after, later);
            (cpu in again <==> cpu in hardware) && (cpu in again ==> again[cpu] == hardware[cpu])
  {
    var after := Committed(defs, cpuClass, dirty, hardware, failing);
    assert Managed(defs, cpuClass) * {} - later == {};
    assert Committed(defs, cpuClass, {}, after, later) == after;
  }

  /** Dirty CPUs of a class. */
  ghost function OfClass(dirty: set<int>, cpuClass: map<int, string>, name: string): set<int> {
    set cpu | cpu in dirty && cpu in cpuClass && cpuClass[cpu] == name
  }

  ghost predicate IsByClass(perClass: map<string, set<int>>, dirty: set<int>, cpuClass: map<int, string>) {
    && (forall name :: name in perClass <==> name != "" && OfClass(dirty, cpuClass, name) != {})
    && (forall name :: name in perClass ==> perClass[name] == OfClass(dirty, cpuClass, name))
  }

  lemma OfClassStep(dirty: set<int>, cpuClass: map<int, string>, cpu: int, name: string)
    ensures OfClass(dirty + {cpu}, cpuClass, name) ==
            OfClass(dirty, cpuClass, name) + if cpu in cpuClass && cpuClass[cpu] == name then {cpu} else {}
  {
  }

  /** The hardware after some classes have been committed. */
  ghost function CommittedBut(todo: set<string>, defs: Classes, cpuClass: map<int, string>, dirty: set<int>,
                              hardware: map<int, ClassDef>, failing: set<int>): map<int, ClassDef>
  {
    hardware + map cpu | cpu in Managed(defs, cpuClass) * dirty - failing && cpuClass[cpu] !in todo :: defs[cpuClass[cpu]]
  }

  lemma CommitStep(todo: set<string>, name: string, defs: Classes, cpuClass: map<int, string>, dirty: set<int>,
                   hardware: map<int, ClassDef>, failing: set<int>)
    requires name in todo && name != ""
    ensures var before := CommittedBut(todo, defs, cpuClass, dirty, hardware, failing);
            CommittedBut(todo - {name}, defs, cpuClass, dirty, hardware, failing) ==
            if name in defs then before + map cpu | cpu in OfClass(dirty, cpuClass, name) - failing :: defs[name] else before
  {
    var before := CommittedBut(todo, defs, cpuClass, dirty, hardware, failing);
    var after := CommittedBut(todo - {name}, defs, cpuClass, dirty, hardware, failing);
    var step := if name in defs then before + map cpu | cpu in OfClass(dirty, cpuClass, name) - failing :: defs[name]
                else before;
    forall cpu
      ensures cpu in after <==> cpu in step
      ensures cpu in after ==> after[cpu] == step[cpu]
    {
    }
    SameMap(after, step);
  }

  class Handler {
    var defs: Classes
    var cpuClass: map<int, string>
    var dirty: set<int>
    /** The definition each CPU was last enforced with. */
    var hardware: map<int, ClassDef>

    constructor ()
      ensures Valid() && defs == map[] && cpuClass == map[] && hardware == map[]
    {
      defs, cpuClass, dirty, hardware := map[], map[], {}, map[];
    }

    ghost predicate Valid()
      reads this
    {
      UpToDate(defs, cpuClass, dirty, hardware)
    }

    /** Starting over: no classes, no assignments, nothing to enforce. */
    method Configure()
      modifies this`defs, this`cpuClass, this`dirty
      ensures Valid() && defs == map[] && cpuClass == map[] && dirty == {}
    {
      defs, cpuClass, dirty := map[], map[], {};
    }

    /** Records a definition; CPUs of the class become dirty unless it was the same before. */
    method SetClassDef(name: string, def: ClassDef)
      requires Valid()
      modifies this`defs, this`dirty
      ensures Valid()
      ensures defs == if name == "" then old(defs) else old(defs)[name := def]
      ensures dirty == if name == "" || (name in old(defs) && old(defs)[name] == def) then old(dirty)
                       else old(dirty) + set cpu | cpu in cpuClass && cpuClass[cpu] == name
    {
      if name == "" {
        return;
      }
      var same := name in defs && defs[name] == def;
      defs := defs[name := def];
      if same {
        return;
      }
      var todo := cpuClass.Keys;
      while todo != {}
        invariant todo <= cpuClass.Keys
        invariant defs == old(defs)[name := def]
        invariant dirty == old(dirty) + set cpu | cpu in cpuClass && cpu !in todo && cpuClass[cpu] == name
        decreases todo
      {
        ghost var w := Pick(todo);
        var cpu :| cpu in todo;
        if cpuClass[cpu] == name {
          dirty := dirty + {cpu};
        }
        todo := todo - {cpu};
      }
    }

    /** Assigns CPUs to a class; the ones whose class changes become dirty. */
    method AssignCpus(name: string, cpus: seq<int>)
      requires Valid()
      modifies this`cpuClass, this`dirty
      ensures Valid()
      ensures forall cpu :: cpu in cpuClass <==> cpu in old(cpuClass) || cpu in cpus
      ensures forall cpu :: cpu in cpuClass ==>
                cpuClass[cpu] == if cpu in cpus then name else old(cpuClass)[cpu]
      ensures dirty == old(dirty) + set cpu | cpu in cpus && !(cpu in old(cpuClass) && old(cpuClass)[cpu] == name)
    {
      for i := 0 to |cpus|
        invariant Valid()
        invariant forall cpu :: cpu in cpuClass <==> cpu in old(cpuClass) || cpu in cpus[..i]
        invariant forall cpu :: cpu in cpuClass ==>
                    cpuClass[cpu] == if cpu in cpus[..i] then name else old(cpuClass)[cpu]
        invariant dirty == old(dirty) + set cpu | cpu in cpus[..i] && !(cpu in old(cpuClass) && old(cpuClass)[cpu] == name)
      {
        var cpu := cpus[i];
        assert cpus[..i+1] == cpus[..i] + [cpu];
        if !(cpu in cpuClass && cpuClass[cpu] == name) {
          cpuClass := cpuClass[cpu := name];
          dirty := dirty + {cpu};
        }
      }
      assert cpus[..|cpus|] == cpus;
    }

    /** Dirty CPUs by their class. */
    method DirtyByClass() returns (perClass: map<string, set<int>>)
      ensures IsByClass(perClass, dirty, cpuClass)
    {
      perClass := map[];
      var todo := dirty;
      ghost var done: set<int> := {};
      while todo != {}
        invariant todo + done == dirty && todo !! done
        invariant IsByClass(perClass, done, cpuClass)
        decreases todo
      {
        ghost var w := Pick(todo);
        var cpu :| cpu in todo;
        forall name ensures OfClass(done + {cpu}, cpuClass, name) ==
                            OfClass(done, cpuClass, name) + if cpu in cpuClass && cpuClass[cpu] == name then {cpu} else {} {
          OfClassStep(done, cpuClass, cpu, name);
        }
        if cpu in cpuClass && cpuClass[cpu] != "" {
          var name := cpuClass[cpu];
          perClass := perClass[name := (if name in perClass then perClass[name] else {}) + {cpu}];
        }
        todo, done := todo - {cpu}, done + {cpu};
      }
    }

    /**
     Enforces the definitions of dirty CPUs, class by class; classes without a definition are
     skipped. Every CPU counts as clean afterwards, also the ones that could not be written.
     */
    method Commit(failing: set<int>)
      requires Valid()
      modifies this`dirty, this`hardware
      ensures dirty == {}
      ensures hardware == Committed(defs, cpuClass, old(dirty), old(hardware), failing)
      ensures old(dirty) !! failing ==> Valid() && hardware == FullRewrite(defs, cpuClass, old(hardware))
    {
      var perClass := DirtyByClass();
      var todo := perClass.Keys;
      NothingCommitted(perClass, old(hardware), failing);
      while todo != {}
        invariant todo <= perClass.Keys && dirty == old(dirty)
        invariant hardware == CommittedBut(todo, defs, cpuClass, dirty, old(hardware), failing)
        decreases todo
      {
        var name :| name in todo;
        CommitStep(todo, name, defs, cpuClass, dirty, old(hardware), failing);
        todo := todo - {name};
        if name in defs {
          hardware := hardware + map cpu | cpu in perClass[name] - failing :: defs[name];
        }
      }
      assert hardware == Committed(defs, cpuClass, dirty, old(hardware), failing);
      CommitIsFullRewriteIff(defs, cpuClass, dirty, old(hardware), failing);
      dirty := {};
    }

    lemma NothingCommitted(perClass: map<string, set<int>>, hw: map<int, ClassDef>, failing: set<int>)
      requires IsByClass(perClass, dirty, cpuClass)
      ensures CommittedBut(perClass.Keys, defs, cpuClass, dirty, hw, failing) == hw
    {
      var all := CommittedBut(perClass.Keys, defs, cpuClass, dirty, hw, failing);
      forall cpu
        ensures cpu in all <==> cpu in hw
        ensures cpu in all ==> all[cpu] == hw[cpu]
      {
        if cpu in Managed(defs, cpuClass) * dirty {
          assert cpu in OfClass(dirty, cpuClass, cpuClass[cpu]);
        }
      }
      SameMap(all, hw);
    }
  }
}

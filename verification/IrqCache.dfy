/**
 The write-back cache of interrupt affinities (pkg/irq/irq-cache.go). Every operation is one or two
 critical sections under the cache's lock; the sections are the steps of the state machine below, so
 its runs are all interleavings of any number of threads.
 */
module IrqCache {
  import opened Options
  import opened CpuSets

  type Affinities = map<int, CpuSet>

  /** What writing an affinity file can come to. */
  datatype Outcome = Written | ReadOnlyFile | Failed

  datatype State = State(
    cpus: Affinities,     // affinities read from or set through the cache
    pending: Affinities,  // affinities not written yet
    readOnly: set<int>,   // interrupts whose affinity cannot be written
    writeBlock: nat,      // nesting of write blocks
    procfs: Affinities,   // contents of the affinity files
    writes: seq<(int, CpuSet)>, // all write attempts so far
    owed: nat)            // threads that left their first section and are yet to flush
  {
    /** The affinity a reader sees: the cached one, or the one in procfs. */
    function View(num: int): Option<CpuSet> {
      if num in cpus then Some(cpus[num])
      else if num in procfs then Some(procfs[num])
      else None
    }

    /** The first section of setAffinity. */
    function Set(num: int, value: CpuSet): State {
      if num in readOnly then this
      else if num in cpus && num !in pending && cpus[num] == value then this
      else this.(cpus := cpus[num := value],
                 pending := pending[num := value],
                 owed := if writeBlock > 0 then owed else owed + 1)
    }

    /** affinityOf: reading fills the cache. */
    function Read(num: int): State {
      if num !in cpus && num in procfs then this.(cpus := cpus[num := procfs[num]]) else this
    }

    function Block(): State {
      this.(writeBlock := writeBlock + 1)
    }

    /** The first section of unblockWrites. */
    function Unblock(): State {
      if writeBlock == 0 then this
      else this.(writeBlock := writeBlock - 1, owed := if writeBlock > 1 then owed else owed + 1)
    }

    /** Writing one pending affinity. */
    function WriteOne(num: int, outcome: Outcome): State
      requires num in pending
    {
      var value := pending[num];
      var s := this.(pending := pending - {num}, writes := writes + [(num, value)]);
      match outcome
      case Written => s.(procfs := procfs[num := value])
      case ReadOnlyFile => s.(cpus := cpus - {num}, readOnly := readOnly + {num})
      case Failed => s.(cpus := cpus - {num})
    }

    function Reset(files: Affinities): State {
      this.(cpus := map[], pending := map[], readOnly := {}, procfs := files)
    }

    /** Pending affinities are cached, cached ones that are not pending are in procfs. */
    ghost predicate Coherent() {
      && (forall n :: n in pending ==> n in cpus && cpus[n] == pending[n] && n !in readOnly)
      && (forall n :: n in cpus && n !in pending ==> n in procfs && cpus[n] == procfs[n])
    }

    /** Between sections, something pending while writes are unblocked is about to be flushed. */
    ghost predicate Valid() {
      Coherent() && (writeBlock == 0 && owed == 0 ==> pending == map[])
    }
  }

  /** Writes all pending affinities in interrupt number order: writePending. */
  ghost function Flushed(s: State, kernel: int -> Outcome): State
    decreases s.pending.Keys
  {
    if s.pending == map[] then s
    else
      var num := MinOf(s.pending.Keys);
      Flushed(s.WriteOne(num, kernel(num)), kernel)
  }

  lemma {:induction false} FlushKeepsCoherent(s: State, kernel: int -> Outcome)
    requires s.Coherent()
    ensures Flushed(s, kernel).Coherent() && Flushed(s, kernel).pending == map[]
    ensures Flushed(s, kernel).writeBlock == s.writeBlock && Flushed(s, kernel).owed == s.owed
    decreases s.pending.Keys
  {
    if s.pending != map[] {
      var num := MinOf(s.pending.Keys);
      FlushKeepsCoherent(s.WriteOne(num, kernel(num)), kernel);
    }
  }

  // ---- runs

  datatype Action =
    | Set(num: int, value: CpuSet)
    | Read(num: int)
    | Block
    | Unblock
    | Flush(kernel: int -> Outcome)
    | Reset(files: Affinities)

  ghost predicate Enabled(s: State, a: Action) {
    a.Flush? ==> s.owed > 0
  }

  ghost function Step(s: State, a: Action): State
    requires Enabled(s, a)
  {
    match a
    case Set(num, value) => s.Set(num, value)
    case Read(num) => s.Read(num)
    case Block => s.Block()
    case Unblock => s.Unblock()
    case Flush(kernel) => Flushed(s, kernel).(owed := s.owed - 1)
    case Reset(files) => s.Reset(files)
  }

  /** Whatever the kernel answers and however threads interleave, the cache stays coherent. */
  lemma StepKeepsValid(s: State, a: Action)
    requires s.Valid() && Enabled(s, a)
    ensures Step(s, a).Valid()
  {
    if a.Flush? {
      FlushKeepsCoherent(s, a.kernel);
    }
  }

  // ---- comparison with unbuffered writes

  /** Affinity files that are read and written directly, except for read-only ones. */
  function DirectStep(files: Affinities, readOnly: set<int>, a: Action): Affinities {
    match a
    case Set(num, value) => if num in readOnly then files else files[num := value]
    case Reset(newFiles) => newFiles
    case _ => files
  }

  ghost predicate AllWritesSucceed(s: State, a: Action) {
    a.Flush? ==> forall n :: n in s.pending ==> a.kernel(n) == Written
  }

  /** The files as they will be once everything pending is written. */
  ghost predicate Represents(s: State, files: Affinities) {
    s.procfs + s.pending == files
  }

  lemma {:induction false} FlushWritesAll(s: State, kernel: int -> Outcome)
    requires s.Coherent() && forall n :: n in s.pending ==> kernel(n) == Written
    ensures Flushed(s, kernel).procfs == s.procfs + s.pending
    ensures Flushed(s, kernel).cpus == s.cpus && Flushed(s, kernel).readOnly == s.readOnly
    decreases s.pending.Keys
  {
    if s.pending == map[] {
      assert s.procfs + s.pending == s.procfs;
    } else {
      var num := MinOf(s.pending.Keys);
      var t := s.WriteOne(num, kernel(num));
      FlushWritesAll(t, kernel);
      assert t.procfs + t.pending == s.procfs + s.pending;
    }
  }

  /** One step of buffering is one step of direct access, seen through the pending writes. */
  lemma StepRefinesDirect(s: State, files: Affinities, a: Action)
    requires s.Valid() && Enabled(s, a) && AllWritesSucceed(s, a) && Represents(s, files)
    ensures Represents(Step(s, a), DirectStep(files, s.readOnly, a))
    ensures !a.Reset? ==> Step(s, a).readOnly == s.readOnly
  {
    match a
    case Set(num, value) =>
      var files' := DirectStep(files, s.readOnly, a);
      assert s.Set(num, value).procfs + s.Set(num, value).pending == files';
    case Flush(kernel) =>
      FlushWritesAll(s, kernel);
      FlushKeepsCoherent(s, kernel);
      assert Flushed(s, kernel).procfs + map[] == Flushed(s, kernel).procfs;
    case Reset(newFiles) =>
      assert newFiles + map[] == newFiles;
    case _ =>
  }

  /** A reader of the cache sees what a reader of directly written files would see. */
  lemma ViewIsDirect(s: State, files: Affinities, num: int)
    requires s.Valid() && Represents(s, files)
    ensures s.View(num) == if num in files then Some(files[num]) else None
  {
    if num in s.pending {
      assert num in s.cpus;
    }
  }

  ghost predicate IsRun(run: seq<State>, actions: seq<Action>) {
    && |run| == |actions| + 1
    && forall i :: 0 <= i < |actions| ==>
         Enabled(run[i], actions[i]) && AllWritesSucceed(run[i], actions[i]) && run[i+1] == Step(run[i], actions[i])
  }

  ghost function Direct(files: Affinities, readOnly: set<int>, actions: seq<Action>): Affinities {
    if actions == [] then files
    else DirectStep(Direct(files, readOnly, actions[..|actions|-1]), readOnly, actions[|actions|-1])
  }

  /**
   Any run of reads, sets, nested blocks and unblocks, in any interleaving, in which all writes
   succeed: at every point every reader sees what unbuffered writes would have left in procfs, and
   whenever writes are unblocked and no flush is due, procfs itself is exactly that.
   */
  lemma {:induction false} BufferingIsTransparent(run: seq<State>, actions: seq<Action>)
    requires IsRun(run, actions) && (forall i :: 0 <= i < |actions| ==> !actions[i].Reset?)
    requires run[0].Valid()
    ensures var last, files := run[|actions|], Direct(run[0].procfs + run[0].pending, run[0].readOnly, actions);
            && last.Valid() && Represents(last, files) && last.readOnly == run[0].readOnly
            && (forall num :: last.View(num) == if num in files then Some(files[num]) else None)
            && (last.writeBlock == 0 && last.owed == 0 ==> last.procfs == files)
    decreases |actions|
  {
    var n := |actions|;
    var last, files := run[n], Direct(run[0].procfs + run[0].pending, run[0].readOnly, actions);
    if n > 0 {
      BufferingIsTransparent(run[..n], actions[..n-1]);
      var before := Direct(run[0].procfs + run[0].pending, run[0].readOnly, actions[..n-1]);
      StepKeepsValid(run[n-1], actions[n-1]);
      StepRefinesDirect(run[n-1], before, actions[n-1]);
    }
    forall num ensures last.View(num) == if num in files then Some(files[num]) else None {
      ViewIsDirect(last, files, num);
    }
    if last.writeBlock == 0 && last.owed == 0 {
      assert last.procfs + map[] == last.procfs;
    }
  }

  // ---- coalescing

  /** Pending affinities in interrupt number order. */
  ghost function InOrder(pending: Affinities): (r: seq<(int, CpuSet)>)
    decreases pending.Keys
  {
    if pending == map[] then []
    else
      var num := MinOf(pending.Keys);
      [(num, pending[num])] + InOrder(pending - {num})
  }

  /** One entry per interrupt, in increasing order, with the affinity that is pending. */
  lemma {:induction false} InOrderListsAll(pending: Affinities)
    ensures forall i :: 0 <= i < |InOrder(pending)| ==>
              InOrder(pending)[i].0 in pending && pending[InOrder(pending)[i].0] == InOrder(pending)[i].1
    ensures forall i, j :: 0 <= i < j < |InOrder(pending)| ==> InOrder(pending)[i].0 < InOrder(pending)[j].0
    ensures |InOrder(pending)| == |pending|
    decreases pending.Keys
  {
    if pending != map[] {
      var num := MinOf(pending.Keys);
      InOrderListsAll(pending - {num});
      assert pending.Keys == (pending - {num}).Keys + {num};
    }
  }

  /** A flush writes each pending interrupt once, whatever comes of it. */
  lemma {:induction false} FlushWritesOnce(s: State, kernel: int -> Outcome)
    ensures Flushed(s, kernel).writes == s.writes + InOrder(s.pending)
    decreases s.pending.Keys
  {
    if s.pending != map[] {
      var num := MinOf(s.pending.Keys);
      var t := s.WriteOne(num, kernel(num));
      FlushWritesOnce(t, kernel);
      assert t.writes + InOrder(t.pending) == s.writes + InOrder(s.pending);
    }
  }

  function SetCount(actions: seq<Action>): nat {
    if actions == [] then 0
    else SetCount(actions[..|actions|-1]) + if actions[|actions|-1].Set? then 1 else 0
  }

  lemma StepWrites(s: State, a: Action)
    requires s.Valid() && Enabled(s, a)
    ensures |Step(s, a).writes| + |Step(s, a).pending| <= |s.writes| + |s.pending| + if a.Set? then 1 else 0
  {
    match a
    case Set(num, value) =>
      assert s.pending[num := value].Keys == s.pending.Keys + {num};
      assert |s.pending[num := value].Keys| <= |s.pending.Keys| + 1;
    case Flush(kernel) =>
      FlushWritesOnce(s, kernel);
      InOrderListsAll(s.pending);
      FlushKeepsCoherent(s, kernel);
    case _ =>
  }

  /** Buffering never writes more often than affinities are set. */
  lemma {:induction false} WritesAtMostSets(run: seq<State>, actions: seq<Action>)
    requires |run| == |actions| + 1 && run[0].Valid()
    requires forall i :: 0 <= i < |actions| ==> Enabled(run[i], actions[i]) && run[i+1] == Step(run[i], actions[i])
    ensures run[|actions|].Valid()
    ensures |run[|actions|].writes| + |run[|actions|].pending| <= |run[0].writes| + |run[0].pending| + SetCount(actions)
    decreases |actions|
  {
    var n := |actions|;
    if n > 0 {
      WritesAtMostSets(run[..n], actions[..n-1]);
      StepKeepsValid(run[n-1], actions[n-1]);
      StepWrites(run[n-1], actions[n-1]);
    }
  }

  // ---- write blocks and concurrent threads

  function AllWritten(): int -> Outcome {
    _ => Written
  }

  /** While blocked, a step writes only if a thread decided to flush before the block took effect. */
  lemma BlockedWriteIff(s: State)
    requires s.writeBlock > 0
    ensures (exists a :: Enabled(s, a) && Step(s, a).writes != s.writes) <==> s.owed > 0 && s.pending != map[]
  {
    if s.owed > 0 && s.pending != map[] {
      var a := Action.Flush(AllWritten());
      FlushWritesOnce(s, a.kernel);
      assert Step(s, a).writes == s.writes + InOrder(s.pending);
      assert |InOrder(s.pending)| > 0;
    }
    if a :| Enabled(s, a) && Step(s, a).writes != s.writes {
      assert a.Flush?;
    }
  }

  /** With no such thread, a block stays tight as long as it lasts. */
  lemma BlockHolds(s: State, a: Action)
    requires s.writeBlock > 0 && s.owed == 0 && Enabled(s, a)
    ensures Step(s, a).writes == s.writes
    ensures Step(s, a).writeBlock > 0 ==> Step(s, a).owed == 0
  {
  }

  /** The race: interrupt 2 is set under a block, yet reaches procfs under that block. */
  lemma WriteUnderBlock(x: CpuSet, y: CpuSet)
    ensures var s := State(map[], map[], {}, 0, map[], [], 0);
            var blocked := s.Set(1, x).Block().Set(2, y);
            var flush := Action.Flush(AllWritten());
            && Enabled(blocked, flush) && Step(blocked, flush).writeBlock == 1
            && Step(blocked, flush).procfs == map[1 := x, 2 := y]
  {
    var s := State(map[], map[], {}, 0, map[], [], 0);
    var blocked := s.Set(1, x).Block().Set(2, y);
    assert blocked.pending == map[1 := x, 2 := y] && blocked.owed == 1;
    FlushKeepsCoherent(blocked, AllWritten());
    FlushWritesAll(blocked, AllWritten());
    assert blocked.procfs + blocked.pending == map[1 := x, 2 := y];
  }

  // ---- the cache itself, used by one thread

  /** Finishes an operation: the second section, if there is one. */
  ghost function Settle(s: State, kernel: int -> Outcome): State {
    if s.owed > 0 then Flushed(s, kernel).(owed := 0) else s
  }

  /** Interrupts whose write does not succeed. */
  ghost function Failing(nums: set<int>, kernel: int -> Outcome): set<int> {
    set n | n in nums && kernel(n) != Written
  }

  ghost predicate IsFirst(first: Option<int>, s: set<int>) {
    if s == {} then first == None else first.Some? && IsMin(s, first.value)
  }

  ghost predicate AllBefore(a: set<int>, b: set<int>) {
    forall m, n :: m in a && n in b ==> m < n
  }

  lemma NextMin(a: set<int>, b: set<int>, num: int)
    requires AllBefore(a, b) && IsMin(b, num)
    ensures AllBefore(a + {num}, b - {num}) && forall m :: m in a ==> m < num
  {
  }

  lemma OneFailing(num: int, kernel: int -> Outcome)
    ensures forall first :: IsFirst(first, Failing({num}, kernel)) ==> first == if kernel(num) == Written then None else Some(num)
  {
    assert Failing({num}, kernel) == if kernel(num) == Written then {} else {num};
  }

  lemma FirstStep(first: Option<int>, done: set<int>, kernel: int -> Outcome, num: int)
    requires IsFirst(first, Failing(done, kernel)) && forall m :: m in done ==> m < num
    ensures IsFirst(if kernel(num) != Written && first.None? then Some(num) else first, Failing(done + {num}, kernel))
  {
    assert Failing(done + {num}, kernel) == Failing(done, kernel) + if kernel(num) == Written then {} else {num};
  }

  class Cache {
    var cpus: Affinities
    var pending: Affinities
    var readOnly: set<int>
    var writeBlock: nat
    var procfs: Affinities
    ghost var writes: seq<(int, CpuSet)>

    constructor (files: Affinities)
      ensures S() == State(map[], map[], {}, 0, files, [], 0) && S().Valid()
    {
      cpus, pending, readOnly, writeBlock, procfs, writes := map[], map[], {}, 0, files, [];
    }

    ghost function S(): State
      reads this
    {
      State(cpus, pending, readOnly, writeBlock, procfs, writes, 0)
    }

    method AffinityOf(num: int) returns (value: Option<CpuSet>)
      requires S().Valid()
      modifies this`cpus
      ensures value == old(S()).View(num)
      ensures S() == old(S()).Read(num) && S().Valid()
    {
      if num in cpus {
        return Some(cpus[num]);
      }
      if num !in procfs {
        return None;
      }
      value := Some(procfs[num]);
      cpus := cpus[num := procfs[num]];
    }

    /** Writes one pending affinity; if that fails the cached value is forgotten. */
    method Write(num: int, outcome: Outcome)
      requires num in pending
      modifies this`cpus, this`pending, this`readOnly, this`procfs, this`writes
      ensures S() == old(S()).WriteOne(num, outcome)
    {
      var value := pending[num];
      pending := pending - {num};
      writes := writes + [(num, value)];
      if outcome == Written {
        procfs := procfs[num := value];
      } else {
        cpus := cpus - {num};
        if outcome == ReadOnlyFile {
          readOnly := readOnly + {num};
        }
      }
    }

    /** Writes all pending affinities and returns the first interrupt that failed. */
    method WritePending(kernel: int -> Outcome) returns (firstErr: Option<int>)
      modifies this`cpus, this`pending, this`readOnly, this`procfs, this`writes
      ensures S() == Flushed(old(S()), kernel)
      ensures IsFirst(firstErr, Failing(old(pending).Keys, kernel))
    {
      firstErr := None;
      ghost var done: set<int> := {};
      while pending != map[]
        invariant Flushed(S(), kernel) == Flushed(old(S()), kernel)
        invariant old(pending).Keys == done + pending.Keys
        invariant AllBefore(done, pending.Keys)
        invariant IsFirst(firstErr, Failing(done, kernel))
        decreases pending.Keys
      {
        var num := FindMin(pending.Keys);
        NextMin(done, pending.Keys, num);
        FirstStep(firstErr, done, kernel, num);
        Write(num, kernel(num));
        if kernel(num) != Written && firstErr.None? {
          firstErr := Some(num);
        }
        done := done + {num};
      }
      assert done == old(pending).Keys;
    }

    /** Sets an affinity now, or later if writes are blocked; an error means the write failed now. */
    method SetAffinity(num: int, value: CpuSet, kernel: int -> Outcome) returns (firstErr: Option<int>)
      requires S().Valid()
      modifies this`cpus, this`pending, this`readOnly, this`procfs, this`writes
      ensures S() == Settle(old(S()).Set(num, value), kernel) && S().Valid()
      ensures firstErr == if writeBlock == 0 && num !in old(readOnly) && kernel(num) != Written &&
                             !(num in old(cpus) && num !in old(pending) && old(cpus)[num] == value)
                          then Some(num) else None
    {
      if num in readOnly {
        return None;
      }
      if num in cpus && num !in pending && cpus[num] == value {
        return None;
      }
      cpus := cpus[num := value];
      pending := pending[num := value];
      if writeBlock > 0 {
        return None;
      }
      FlushKeepsCoherent(S(), kernel);
      FlushOwes(S(), kernel);
      assert old(pending) == map[] && pending.Keys == {num};
      OneFailing(num, kernel);
      firstErr := WritePending(kernel);
    }

    method BlockWrites()
      requires S().Valid()
      modifies this`writeBlock
      ensures S() == old(S()).Block() && S().Valid()
    {
      writeBlock := writeBlock + 1;
    }

    /** Removes one block; removing the last one writes everything pending. */
    method UnblockWrites(kernel: int -> Outcome)
      requires S().Valid()
      modifies this
      ensures S() == Settle(old(S()).Unblock(), kernel) && S().Valid()
    {
      if writeBlock == 0 {
        return;
      }
      writeBlock := writeBlock - 1;
      if writeBlock > 0 {
        return;
      }
      FlushKeepsCoherent(S(), kernel);
      FlushOwes(S(), kernel);
      var firstErr := WritePending(kernel);
    }

    method Reset(files: Affinities)
      requires S().Valid()
      modifies this`cpus, this`pending, this`readOnly, this`procfs
      ensures S() == old(S()).Reset(files) && S().Valid()
    {
      cpus, pending, readOnly, procfs := map[], map[], {}, files;
    }
  }

  /** How many flushes are due makes no difference to a flush. */
  lemma {:induction false} FlushOwes(s: State, kernel: int -> Outcome)
    ensures forall n: nat :: Flushed(s.(owed := n), kernel) == Flushed(s, kernel).(owed := n)
    decreases s.pending.Keys
  {
    if s.pending != map[] {
      var num := MinOf(s.pending.Keys);
      var t := s.WriteOne(num, kernel(num));
      FlushOwes(t, kernel);
      forall n: nat ensures Flushed(s.(owed := n), kernel) == Flushed(s, kernel).(owed := n) {
        assert s.(owed := n).WriteOne(num, kernel(num)) == t.(owed := n);
      }
    }
  }
}

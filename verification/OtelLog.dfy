/**
 The chain of log handlers over a replaceable native handler (pkg/log/otel.go). Each handler caches
 what its chain of groups and attributes makes of the native handler, together with the stamp of the
 native handler it was made from.
 */
module OtelLog {

  /** One step on the path from the native handler to a derived one. */
  datatype Element = Group(name: string) | Attrs(attrs: seq<string>)

  /** A slog handler: a native one with groups and attributes applied in order. */
  datatype Slog = Slog(native: int, path: seq<Element>) {
    function With(e: Element): Slog {
      Slog(native, path + [e])
    }

    /** Adding no attributes makes no difference to what is logged. */
    function Meaning(): (int, seq<Element>) {
      (native, Effective(path))
    }
  }

  function Effective(path: seq<Element>): seq<Element> {
    if path == [] then []
    else
      var e := path[|path|-1];
      Effective(path[..|path|-1]) + if e == Attrs([]) then [] else [e]
  }

  lemma EffectiveAppend(path: seq<Element>, e: Element)
    ensures Effective(path + [e]) == Effective(path) + if e == Attrs([]) then [] else [e]
  {
    assert (path + [e])[..|path|] == path;
  }

  /** The handler a path gives on a native handler: what a rebuild from scratch would compute. */
  function Replay(native: Slog, path: seq<Element>): Slog {
    if path == [] then native
    else Apply(Replay(native, path[..|path|-1]), path[|path|-1])
  }

  /** How a rebuild applies one element: empty attributes are skipped. */
  function Apply(h: Slog, e: Element): Slog {
    if e == Attrs([]) then h else h.With(e)
  }

  lemma ReplayAppend(native: Slog, path: seq<Element>, e: Element)
    ensures Replay(native, path + [e]) == Apply(Replay(native, path), e)
  {
    assert (path + [e])[..|path|] == path;
  }

  /** Creating a child applies its element always, a rebuild skips empty attributes; both mean the same. */
  lemma WithMeansApply(h: Slog, g: Slog, e: Element)
    requires h.Meaning() == g.Meaning()
    ensures h.With(e).Meaning() == Apply(g, e).Meaning()
  {
    EffectiveAppend(h.path, e);
    EffectiveAppend(g.path, e);
    assert Effective(h.path) + [] == Effective(h.path);
  }

  lemma ChildMeansReplay(native: Slog, path: seq<Element>, h: Slog, e: Element)
    requires h.Meaning() == Replay(native, path).Meaning()
    ensures h.With(e).Meaning() == Replay(native, path + [e]).Meaning()
  {
    WithMeansApply(h, Replay(native, path), e);
    ReplayAppend(native, path, e);
  }

  /** What a native handler is to be replaced by. */
  datatype Replacement = Nothing | Use(handler: Slog) {
    function Installed(): Slog {
      if Nothing? then DISCARD else handler
    }
  }

  const STAMPS := 0x1_0000_0000
  const DISCARD := Slog(0, [])

  class Native {
    var handler: Slog
    var stamp: int
    /** All native handlers there have been; the last one is current. */
    ghost var history: seq<Slog>

    constructor ()
      ensures Valid() && history == [DISCARD]
    {
      handler, stamp, history := DISCARD, 0, [DISCARD];
    }

    ghost predicate Valid()
      reads this
    {
      |history| > 0 && handler == history[|history|-1] && stamp == (|history| - 1) % STAMPS
    }

    /** Installs another native handler, or one that discards everything, and returns the previous one. */
    method Swap(next: Replacement) returns (previous: Slog)
      requires Valid()
      modifies this
      ensures Valid() && history == old(history) + [next.Installed()] && previous == old(handler)
    {
      previous := handler;
      handler := if next.Nothing? then DISCARD else next.handler;
      stamp := (stamp + 1) % STAMPS;
      history := history + [handler];
      StampStep(|history| - 2);
    }
  }

  lemma StampStep(n: nat)
    ensures (n % STAMPS + 1) % STAMPS == (n + 1) % STAMPS
  {
    if n % STAMPS == STAMPS - 1 {
      assert n + 1 == (n / STAMPS + 1) * STAMPS;
    } else {
      assert n + 1 == (n / STAMPS) * STAMPS + (n % STAMPS + 1);
    }
  }

  /** A handler is its path replayed on the native handler of an epoch. */
  ghost predicate MadeFrom(history: seq<Slog>, epoch: nat, handler: Slog, path: seq<Element>) {
    epoch < |history| && handler.Meaning() == Replay(history[epoch], path).Meaning()
  }

  ghost predicate StampedFor(history: seq<Slog>, epoch: nat, stamp: int) {
    epoch < |history| && stamp == epoch % STAMPS
  }

  /** Replacing the native handler leaves every cached handler what it was. */
  lemma CachedAfterSwap(history: seq<Slog>, next: Slog, epoch: nat, handler: Slog, path: seq<Element>)
    requires MadeFrom(history, epoch, handler, path)
    ensures MadeFrom(history + [next], epoch, handler, path)
  {
    assert (history + [next])[epoch] == history[epoch];
  }

  lemma ChildMade(history: seq<Slog>, epoch: nat, handler: Slog, path: seq<Element>, e: Element)
    requires MadeFrom(history, epoch, handler, path)
    ensures MadeFrom(history, epoch, handler.With(e), path + [e])
  {
    ChildMeansReplay(history[epoch], path, handler, e);
  }

  /** What a path gives means the path of the native handler and then this one. */
  lemma {:induction false} ReplayMeaning(native: Slog, path: seq<Element>)
    ensures Replay(native, path).Meaning() == (native.native, Effective(native.path) + Effective(path))
  {
    if path == [] {
      assert Effective(native.path) + [] == Effective(native.path);
    } else {
      var init, e := path[..|path|-1], path[|path|-1];
      assert path == init + [e];
      ReplayMeaning(native, init);
      EffectiveAppend(Replay(native, init).path, e);
      EffectiveAppend(init, e);
      assert Effective(init) + [] == Effective(init);
      assert Effective(native.path) + (Effective(init) + [e]) == Effective(native.path) + Effective(init) + [e];
    }
  }

  /** A path tells native handlers apart that mean different things. */
  lemma ReplaysAgreeIff(a: Slog, b: Slog, path: seq<Element>)
    ensures Replay(a, path).Meaning() == Replay(b, path).Meaning() <==> a.Meaning() == b.Meaning()
  {
    ReplayMeaning(a, path);
    ReplayMeaning(b, path);
    var x, y, z := Effective(a.path), Effective(b.path), Effective(path);
    if x + z == y + z {
      assert |x| == |y|;
      assert (x + z)[..|x|] == x && (y + z)[..|y|] == y;
    }
  }

  lemma StampsAgreeIff(m: nat, n: nat)
    requires m <= n
    ensures m % STAMPS == n % STAMPS <==> (n - m) % STAMPS == 0
  {
    var d := n - m;
    assert n == (m / STAMPS + d / STAMPS) * STAMPS + (m % STAMPS + d % STAMPS);
    if m % STAMPS + d % STAMPS >= STAMPS {
      assert n == (m / STAMPS + d / STAMPS + 1) * STAMPS + (m % STAMPS + d % STAMPS - STAMPS);
    }
  }

  /**
   A handler whose stamp is the current one, and which has been made from the native handler of some
   epoch, is its whole path replayed on the current native handler if and only if the two native
   handlers mean the same; they are the same if it was stamped for the one it was made from. All that
   unless the native handler has been replaced 2^32 times or more since it was stamped.
   */
  lemma StampedIsCurrent(history: seq<Slog>, epoch: nat, stamped: nat, stamp: int, handler: Slog, path: seq<Element>)
    requires MadeFrom(history, epoch, handler, path) && StampedFor(history, stamped, stamp)
    requires stamp == (|history| - 1) % STAMPS && |history| - 1 - stamped < STAMPS
    ensures stamped == |history| - 1
    ensures handler.Meaning() == Replay(history[|history|-1], path).Meaning() <==>
              history[epoch].Meaning() == history[|history|-1].Meaning()
  {
    StampsAgreeIff(stamped, |history| - 1);
    ReplaysAgreeIff(history[epoch], history[|history|-1], path);
  }

  /**
   After any multiple of 2^32 replacements the stamp is back, and a handler of another native one
   passes for current.
   */
  lemma StampWrapsAround(history: seq<Slog>, epoch: nat, stamp: int, handler: Slog, path: seq<Element>)
    requires MadeFrom(history, epoch, handler, path) && StampedFor(history, epoch, stamp)
    requires (|history| - 1 - epoch) % STAMPS == 0 && history[|history|-1].Meaning() != history[epoch].Meaning()
    ensures stamp == (|history| - 1) % STAMPS && |history| - 1 - epoch >= STAMPS
    ensures handler.Meaning() != Replay(history[|history|-1], path).Meaning()
  {
    StampsAgreeIff(epoch, |history| - 1);
    ReplaysAgreeIff(history[epoch], history[|history|-1], path);
  }

  class Handler {
    const parent: Handler?
    const element: Element
    var handler: Slog
    var stamp: int
    ghost const path: seq<Element>
    /** Which native handler, counted from the first, the cached handler was made from. */
    ghost var epoch: nat
    /** Which native handler the stamp is that of; another one if the two were read at different times. */
    ghost var stamped: nat

    constructor Root(native: Native)
      requires native.Valid()
      ensures Chain() && path == [] && Valid(native) && epoch == stamped == |native.history| - 1
    {
      parent, element, path := null, Attrs([]), [];
      handler, stamp := native.handler, native.stamp;
      epoch, stamped := |native.history| - 1, |native.history| - 1;
    }

    /**
     A child for a group or for attributes, made from a handler and a stamp that the parent has or has
     had. They are read one after the other without a lock, so the parent may have been rebuilt between.
     */
    constructor Child(parent: Handler, element: Element, read: Slog, readStamp: int,
                      ghost readEpoch: nat, ghost readStamped: nat, ghost native: Native)
      requires parent.Chain()
      requires MadeFrom(native.history, readEpoch, read, parent.path) && StampedFor(native.history, readStamped, readStamp)
      ensures Chain() && this.parent == parent && path == parent.path + [element]
      ensures Valid(native) && stamp == readStamp && epoch == readEpoch && stamped == readStamped
    {
      this.parent, this.element := parent, element;
      path := parent.path + [element];
      handler, stamp, epoch, stamped := read.With(element), readStamp, readEpoch, readStamped;
      ChildMade(native.history, readEpoch, read, parent.path, element);
      new;
      hide MadeFrom, StampedFor;
    }

    /** The path is the elements from the root down to here. */
    ghost predicate Chain()
      decreases |path|
    {
      if parent == null then path == []
      else path == parent.path + [element] && parent.Chain()
    }

    /** The cached handler is the whole path replayed on the native handler of its epoch. */
    ghost predicate Valid(native: Native)
      reads this, native
    {
      MadeFrom(native.history, epoch, handler, path) && StampedFor(native.history, stamped, stamp)
    }

    /** This handler and all it derives from. */
    ghost function Ancestors(): set<Handler>
      requires Chain()
      decreases |path|
    {
      {this} + if parent == null then {} else parent.Ancestors()
    }

    /** The handler to log with, rebuilt if the native handler has been replaced; else nothing changes. */
    method GetHandler(native: Native) returns (h: Slog)
      requires Chain() && native.Valid() && Valid(native)
      modifies if stamp == native.stamp then {} else Ancestors()
      ensures native.Valid() && Valid(native)
      ensures h == handler
      ensures old(stamp) != native.stamp ==>
                forall a :: a in Ancestors() ==> a.Valid(native) && a.epoch == a.stamped == |native.history| - 1
    {
      if stamp == native.stamp {
        return handler;
      }
      h := Update(native);
    }

    /** The handlers from here up to the root. */
    method Parents() returns (parents: seq<Handler>)
      requires Chain()
      ensures IsChain(parents) && parents[0] == this && parents[|parents|-1].parent == null
      ensures Members(parents) == Ancestors()
    {
      var root: Handler := this;
      parents := [this];
      while root.parent != null
        invariant IsChain(parents) && parents[|parents|-1] == root && parents[0] == this
        invariant Ancestors() == Members(parents) + root.Ancestors()
        decreases |root.path|
      {
        root := root.parent;
        parents := parents + [root];
      }
    }

    /** Rebuilds the whole chain, root first. */
    method Update(native: Native) returns (h: Slog)
      requires Chain() && native.Valid()
      modifies Ancestors()
      ensures h == handler == Replay(native.handler, path)
      ensures forall a :: a in Ancestors() ==> a.Valid(native) && a.epoch == a.stamped == |native.history| - 1
    {
      var parents := Parents();
      Rebuild(parents, native);
      assert this in Members(parents);
      h := handler;
    }

    ghost predicate Rebuilt(native: Native)
      reads this, native
    {
      && native.Valid()
      && handler == Replay(native.handler, path) && stamp == native.stamp && epoch == stamped == |native.history| - 1
    }
  }

  ghost function Members(s: seq<Handler>): set<Handler> {
    set h | h in s
  }

  /** From a handler to its parent, one after the other. */
  ghost predicate IsChain(s: seq<Handler>) {
    && |s| > 0
    && (forall i :: 0 <= i < |s| ==> s[i].Chain())
    && (forall i :: 0 <= i < |s| - 1 ==> s[i].parent == s[i+1])
  }

  lemma ChainShrinks(s: seq<Handler>, i: nat, j: nat)
    requires IsChain(s) && i < j < |s|
    ensures |s[i].path| > |s[j].path|
    decreases j - i
  {
    assert s[i].parent == s[i+1];
    if i + 1 < j {
      ChainShrinks(s, i + 1, j);
    }
  }

  /** Gives every handler of a chain what its path makes of the native handler. */
  method Rebuild(parents: seq<Handler>, native: Native)
    requires IsChain(parents) && parents[|parents|-1].parent == null && native.Valid()
    modifies Members(parents)
    ensures forall a :: a in Members(parents) ==> a.Rebuilt(native)
  {
    var i := |parents| - 1;
    var root := parents[i];
    root.handler, root.stamp := native.handler, native.stamp;
    root.epoch, root.stamped := |native.history| - 1, |native.history| - 1;
    while i > 0
      invariant 0 <= i < |parents|
      invariant forall k :: i <= k < |parents| ==> parents[k].Rebuilt(native)
    {
      i := i - 1;
      var p, prev := parents[i], parents[i+1];
      forall k | i < k < |parents| ensures parents[k] != p {
        ChainShrinks(parents, i, k);
      }
      ReplayAppend(native.handler, prev.path, p.element);
      p.handler, p.stamp := Apply(prev.handler, p.element), native.stamp;
      p.epoch, p.stamped := |native.history| - 1, |native.history| - 1;
    }
  }

  // ---- all handlers there are

  /** The native handler and everything derived from it, under any mix of swaps, new handlers and rebuilds. */
  class Logging {
    const native: Native
    ghost var handlers: set<Handler>

    constructor ()
      ensures Valid() && handlers == {} && native.history == [DISCARD] && fresh(native)
    {
      native := new Native();
      handlers := {};
    }

    /** Every handler, with all it derives from, is its path replayed on the native handler it was made from. */
    ghost predicate Valid()
      reads this, native, handlers
    {
      && native.Valid()
      && (forall h :: h in handlers ==> h.Chain() && h.Ancestors() <= handlers && h.Valid(native))
    }

    method SetOtelHandler(next: Replacement) returns (previous: Slog)
      requires Valid()
      modifies native
      ensures Valid() && native.history == old(native.history) + [next.Installed()] && previous == old(native.handler)
    {
      ghost var history := native.history;
      previous := native.Swap(next);
      forall h | h in handlers ensures h.Valid(native) {
        CachedAfterSwap(history, next.Installed(), h.epoch, h.handler, h.path);
      }
    }

    method NewOtelHandler() returns (h: Handler)
      requires Valid()
      modifies this
      ensures Valid() && fresh(h) && handlers == old(handlers) + {h} && h.path == []
    {
      h := new Handler.Root(native);
      handlers := handlers + {h};
    }

    /** A child of any handler, from what was read of it before, at different times perhaps. */
    method NewChildHandler(parent: Handler, element: Element, read: Slog, stamp: int,
                           ghost epoch: nat, ghost stamped: nat) returns (h: Handler)
      requires Valid() && parent in handlers
      requires MadeFrom(native.history, epoch, read, parent.path) && StampedFor(native.history, stamped, stamp)
      modifies this
      ensures Valid() && fresh(h) && handlers == old(handlers) + {h} && h.path == parent.path + [element]
      ensures h.stamp == stamp && h.epoch == epoch && h.stamped == stamped
    {
      hide MadeFrom, StampedFor;
      h := new Handler.Child(parent, element, read, stamp, epoch, stamped, native);
      assert h.Ancestors() == {h} + parent.Ancestors();
      handlers := handlers + {h};
    }

    /**
     What a handler logs with, unless its stamp has come round: its path replayed on the current native
     handler, if and only if it is rebuilt or was made from a native handler that means the same.
     */
    method GetHandler(h: Handler) returns (slog: Slog)
      requires Valid() && h in handlers
      modifies handlers
      ensures Valid()
      ensures old(h.stamp) != native.stamp ==> h.stamp == native.stamp && h.epoch == h.stamped == |native.history| - 1
      ensures |native.history| - 1 - old(h.stamped) < STAMPS ==>
                (slog.Meaning() == Replay(native.handler, h.path).Meaning() <==>
                  old(h.stamp) != native.stamp || native.history[old(h.epoch)].Meaning() == native.handler.Meaning())
    {
      ghost var wasCurrent := h.stamp == native.stamp;
      slog := h.GetHandler(native);
      if |native.history| - 1 - old(h.stamped) < STAMPS {
        StampedIsCurrent(native.history, h.epoch, h.stamped, h.stamp, h.handler, h.path);
      }
    }

    /**
     Whenever a handler's stamp is the current one, it is what its path makes of the current native
     handler if it was stamped for the native handler it was made from.
     */
    lemma StampedAreCurrent()
      requires Valid()
      ensures forall h :: h in handlers && h.stamp == native.stamp && |native.history| - 1 - h.stamped < STAMPS ==>
                h.epoch == h.stamped ==> h.handler.Meaning() == Replay(native.handler, h.path).Meaning()
    {
      forall h | h in handlers && h.stamp == native.stamp && |native.history| - 1 - h.stamped < STAMPS
        ensures h.epoch == h.stamped ==> h.handler.Meaning() == Replay(native.handler, h.path).Meaning()
      {
        StampedIsCurrent(native.history, h.epoch, h.stamped, h.stamp, h.handler, h.path);
      }
    }

    /** Replaces the native handler, after which a handler is rebuilt. */
    method SwapAndRebuild(h: Handler, next: Replacement)
      requires Valid() && h in handlers && |native.history| - h.stamped < STAMPS
      modifies native, handlers
      ensures Valid() && native.history == old(native.history) + [next.Installed()]
      ensures h.stamp == native.stamp && h.stamped == |native.history| - 1
    {
      hide Replay, Slog.Meaning, MadeFrom;
      StampsAgreeIff(h.stamped, |native.history|);
      var previous := SetOtelHandler(next);
      var slog := GetHandler(h);
    }

    /**
     A run that goes wrong: the native handler is replaced by one that means something else, and the
     parent rebuilt, after its handler has been read for a child and before its stamp is. The child
     passes for current with the handler of the native one that was replaced.
     */
    method ChildDuringRebuild(parent: Handler, element: Element, next: Replacement) returns (h: Handler)
      requires Valid() && parent in handlers && |native.history| - parent.stamped < STAMPS
      requires next.Installed().Meaning() != native.history[parent.epoch].Meaning()
      modifies this, native, handlers
      ensures Valid() && h in handlers && h.path == parent.path + [element]
      ensures h.stamp == native.stamp && h.handler.Meaning() != Replay(native.handler, h.path).Meaning()
    {
      assert parent.epoch < |native.history|;
      hide Replay, Slog.Meaning, MadeFrom, Slog.With;
      var read := parent.handler;
      ghost var history, epoch := native.history, parent.epoch;
      CachedAfterSwap(history, next.Installed(), epoch, read, parent.path);
      SwapAndRebuild(parent, next);
      h := NewChildHandler(parent, element, read, parent.stamp, epoch, parent.stamped);
      assert native.history[epoch] == history[epoch] && native.handler == next.Installed();
      StampedIsCurrent(native.history, h.epoch, h.stamped, h.stamp, h.handler, h.path);
    }
  }
}

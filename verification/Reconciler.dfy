/**
 The wakeup protocol between any number of updaters and the single reconciling worker
 (pkg/agent/node-extended-resources.go). Updaters store the complete desired state and then send a
 wake token into a channel of capacity one; the worker waits for a token or its timer, looks at the
 desired state, gets the node, takes the desired state, and patches the node.
 */
module Reconciler {

  /** Where the worker is. `Patching(v)` has taken version v of the desired state. */
  datatype Worker = Waiting | Woken | GettingNode | HaveNode | Patching(v: nat)

  datatype Timer = Stopped | Resync | Retry

  /** Desired states are numbered in the order they are stored; 0 is the initial, empty one. */
  datatype State = State(
    want: nat,      // the newest stored desired state
    sending: nat,   // updaters that have stored but not sent yet
    token: bool,    // a wake token is in the channel
    worker: Worker,
    timer: Timer,
    seen: nat,      // the newest desired state taken by a reconcile round
    settled: nat)   // the newest desired state a round has successfully brought about

  datatype Action =
    | Store               // an updater stores a desired state
    | Send                // an updater sends the wake token, or finds one there
    | Wake                // the worker receives the token
    | TimerFires          // the worker's timer wakes it
    | Look                // the worker checks that there is something desired
    | GetNode(ok: bool)   // the node is read from the API server, or not
    | Take                // the worker takes the desired state
    | PatchNode(ok: bool) // the patch is applied, or not

  /** The empty desired states ask for nothing; the initial one is empty. */
  type Empty = nat -> bool

  predicate Enabled(s: State, a: Action) {
    match a
    case Store => true
    case Send => s.sending > 0
    case Wake => s.worker == Waiting && s.token
    case TimerFires => s.worker == Waiting && s.timer != Stopped
    case Look => s.worker == Woken
    case GetNode(_) => s.worker == GettingNode
    case Take => s.worker == HaveNode
    case PatchNode(_) => s.worker.Patching?
  }

  /** The end of a round: wait again, sooner if the round failed. */
  function Rest(s: State, failed: bool): State {
    s.(worker := Waiting, timer := if failed then Retry else Resync)
  }

  function Step(empty: Empty, s: State, a: Action): State
    requires Enabled(s, a)
  {
    match a
    case Store => s.(want := s.want + 1, sending := s.sending + 1)
    case Send => s.(sending := s.sending - 1, token := true)
    case Wake => s.(token := false, worker := Woken, timer := Stopped)
    case TimerFires => s.(worker := Woken, timer := Stopped)
    case Look =>
      if empty(s.want) then Rest(s.(seen := s.want, settled := s.want), false) else s.(worker := GettingNode)
    case GetNode(ok) => if ok then s.(worker := HaveNode) else Rest(s, true)
    case Take =>
      if empty(s.want) then Rest(s.(seen := s.want, settled := s.want), false)
      else s.(worker := Patching(s.want), seen := s.want)
    case PatchNode(ok) => if ok then Rest(s.(settled := s.worker.v), false) else Rest(s, true)
  }

  const INITIAL := State(0, 0, false, Waiting, Resync, 0, 0)

  /** The worker will take the newest desired state in this round. */
  predicate WillTake(s: State) {
    s.worker == Woken || s.worker == GettingNode || s.worker == HaveNode
  }

  /** Something will make the worker look again. */
  predicate WakeupDue(s: State) {
    s.token || s.sending > 0 || WillTake(s)
  }

  ghost predicate Inv(s: State) {
    && s.settled <= s.seen <= s.want
    && (s.worker.Patching? ==> s.worker.v == s.seen)
    && (s.worker == Waiting ==> s.timer != Stopped)
    && (s.seen < s.want ==> WakeupDue(s) || (s.worker == Waiting && s.timer == Retry))
    && (s.settled < s.seen ==> s.worker.Patching? || WakeupDue(s) || (s.worker == Waiting && s.timer == Retry))
  }

  lemma StepKeepsInv(empty: Empty, s: State, a: Action)
    requires Inv(s) && Enabled(s, a)
    ensures Inv(Step(empty, s, a))
  {
  }

  ghost predicate IsRun(empty: Empty, run: seq<State>, actions: seq<Action>) {
    && |run| == |actions| + 1 && run[0] == INITIAL
    && forall i :: 0 <= i < |actions| ==> Enabled(run[i], actions[i]) && run[i+1] == Step(empty, run[i], actions[i])
  }

  /**
   No desired state is lost, in any interleaving of updaters and worker: as long as the newest
   desired state has not been taken by a round, a token is buffered, an updater is about to send
   one, the worker is between its wakeup and the take, or the retry timer is running. And as long
   as it has not been brought about, one of these holds or the worker is patching it right now.
   */
  lemma {:induction false} NothingIsLost(empty: Empty, run: seq<State>, actions: seq<Action>)
    requires IsRun(empty, run, actions)
    ensures var s := run[|actions|];
            && Inv(s)
            && (s.seen < s.want ==> WakeupDue(s) || (s.worker == Waiting && s.timer == Retry))
            && (s.settled < s.want ==> s.worker == Patching(s.want) || WakeupDue(s) || (s.worker == Waiting && s.timer == Retry))
    decreases |actions|
  {
    var n := |actions|;
    if n > 0 {
      NothingIsLost(empty, run[..n], actions[..n-1]);
      StepKeepsInv(empty, run[n-1], actions[n-1]);
    }
  }

  /** At rest, with nothing due and no failure, the newest desired state has been brought about. */
  lemma RestMeansSettled(s: State)
    requires Inv(s) && s.worker == Waiting && !WakeupDue(s) && s.timer != Retry
    ensures s.settled == s.want
  {
  }

  /** The next action of the worker if nothing fails. */
  function Next(s: State): Action {
    match s.worker
    case Waiting => if s.token then Wake else TimerFires
    case Woken => Look
    case GettingNode => GetNode(true)
    case HaveNode => Take
    case Patching(_) => PatchNode(true)
  }

  function Round(empty: Empty, s: State, steps: nat): State
    requires Inv(s)
    decreases steps
  {
    if steps == 0 || (s.worker == Waiting && s.settled == s.want) then s
    else
      StepKeepsInv(empty, s, Next(s));
      Round(empty, Step(empty, s, Next(s)), steps - 1)
  }

  /** Left alone and without failures, the worker catches up within ten steps from any reachable state. */
  lemma CatchesUp(empty: Empty, s: State)
    requires Inv(s)
    ensures var r := Round(empty, s, 10); r.worker == Waiting && r.settled == r.want == s.want
  {
    match s.worker
    case Waiting => FromWaiting(empty, s, 10);
    case Woken => FromWoken(empty, s, 10);
    case GettingNode => FromNode(empty, s, 10);
    case HaveNode => FromTake(empty, s, 10);
    case Patching(_) =>
      StepKeepsInv(empty, s, Next(s));
      var t := Step(empty, s, Next(s));
      FromWaiting(empty, t, 9);
  }

  lemma FromTake(empty: Empty, s: State, steps: nat)
    requires Inv(s) && s.worker == HaveNode && steps >= 2
    ensures var r := Round(empty, s, steps); r.worker == Waiting && r.settled == r.want == s.want
  {
    StepKeepsInv(empty, s, Next(s));
    var t := Step(empty, s, Next(s));
    if empty(s.want) {
      assert Round(empty, t, steps - 1) == t;
    } else {
      StepKeepsInv(empty, t, Next(t));
      var u := Step(empty, t, Next(t));
      assert Round(empty, u, steps - 2) == u;
    }
  }

  lemma FromNode(empty: Empty, s: State, steps: nat)
    requires Inv(s) && s.worker == GettingNode && steps >= 3
    ensures var r := Round(empty, s, steps); r.worker == Waiting && r.settled == r.want == s.want
  {
    StepKeepsInv(empty, s, Next(s));
    FromTake(empty, Step(empty, s, Next(s)), steps - 1);
  }

  lemma FromWoken(empty: Empty, s: State, steps: nat)
    requires Inv(s) && s.worker == Woken && steps >= 4
    ensures var r := Round(empty, s, steps); r.worker == Waiting && r.settled == r.want == s.want
  {
    StepKeepsInv(empty, s, Next(s));
    var t := Step(empty, s, Next(s));
    if empty(s.want) {
      assert Round(empty, t, steps - 1) == t;
    } else {
      FromNode(empty, t, steps - 1);
    }
  }

  lemma FromWaiting(empty: Empty, s: State, steps: nat)
    requires Inv(s) && s.worker == Waiting && steps >= 5
    ensures var r := Round(empty, s, steps); r.worker == Waiting && r.settled == r.want == s.want
  {
    if s.settled != s.want {
      StepKeepsInv(empty, s, Next(s));
      FromWoken(empty, Step(empty, s, Next(s)), steps - 1);
    }
  }
}

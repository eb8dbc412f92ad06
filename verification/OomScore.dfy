/**
 Estimating memory requests from OOM score adjustments (pkg/kubernetes/resources.go): the search
 that fills the estimate table has a closed-form answer.
 */
module OomScore {
  import opened Options

  const INT64_MAX := 0x7FFF_FFFF_FFFF_FFFF

  /** Two's complement wrap-around of 64-bit products. */
  function Wrap64(x: int): int {
    (x + INT64_MAX + 1) % (2 * (INT64_MAX + 1)) - INT64_MAX - 1
  }

  /** Division truncating toward zero. */
  function Quotient(x: int, y: int): int
    requires y > 0
  {
    if x >= 0 then x / y else -((-x) / y)
  }

  function MemReqToOomAdj(capacity: int, request: int): int
    requires capacity > 0
  {
    1000 - Quotient(Wrap64(1000 * request), capacity)
  }

  /** The smallest integer that is at least i thousandths of the capacity. */
  function Estimate(capacity: int, i: int): int {
    (i * capacity + 999) / 1000
  }

  lemma EstimateIsCeiling(capacity: int, i: int)
    ensures 1000 * (Estimate(capacity, i) - 1) < i * capacity <= 1000 * Estimate(capacity, i)
  {
  }

  lemma NoWrap(capacity: int, request: int)
    requires capacity > 0 && 0 <= request && 1000 * request <= INT64_MAX
    ensures MemReqToOomAdj(capacity, request) == 1000 - (1000 * request) / capacity
  {
    assert Wrap64(1000 * request) == 1000 * request;
  }

  lemma QuotientAtLeast(x: int, y: int, i: int)
    requires y > 0
    ensures x / y >= i <==> x >= i * y
  {
    QuotientBounds(x, y);
    if x / y >= i {
      MulMonotone(i, x / y, y);
    } else {
      MulMonotone(x / y + 1, i, y);
    }
  }

  /** Requests with adjustment 1000 - i or less are those that reach i thousandths of the capacity. */
  lemma AdjustmentAtMost(capacity: int, request: int, i: int)
    requires capacity > 0 && 0 <= request && 1000 * request <= INT64_MAX
    ensures MemReqToOomAdj(capacity, request) <= 1000 - i <==> request >= Estimate(capacity, i)
  {
    NoWrap(capacity, request);
    QuotientAtLeast(1000 * request, capacity, i);
    EstimateIsCeiling(capacity, i);
  }

  lemma QuotientBounds(x: int, y: int)
    requires y > 0
    ensures (x / y) * y <= x < (x / y + 1) * y
  {
  }

  lemma MulMonotone(a: int, b: int, c: int)
    requires a <= b && c >= 0
    ensures a * c <= b * c
  {
  }

  lemma EstimatesGrow(capacity: int, i: int)
    requires capacity >= 1000
    ensures Estimate(capacity, i) < Estimate(capacity, i + 1)
  {
    EstimateIsCeiling(capacity, i);
    EstimateIsCeiling(capacity, i + 1);
  }

  /** An adjustment names exactly the requests between two neighbouring estimates. */
  lemma AdjustmentInterval(capacity: int, request: int, i: int)
    requires capacity > 0 && 0 <= request && 1000 * request <= INT64_MAX
    ensures MemReqToOomAdj(capacity, request) == 1000 - i <==>
            Estimate(capacity, i) <= request < Estimate(capacity, i + 1)
  {
    AdjustmentAtMost(capacity, request, i);
    AdjustmentAtMost(capacity, request, i + 1);
  }

  /**
   The estimate for the adjustment of a request never exceeds the request, is less than a thousandth
   of the capacity below it, and is the smallest request with that adjustment.
   */
  lemma EstimateOfRequest(capacity: int, request: int, i: int)
    requires capacity > 0 && 0 <= request && 1000 * request <= INT64_MAX
    requires MemReqToOomAdj(capacity, request) == 1000 - i
    ensures Estimate(capacity, i) <= request && 1000 * (request - Estimate(capacity, i)) < capacity
    ensures forall r :: 0 <= r <= request && MemReqToOomAdj(capacity, r) == 1000 - i ==> Estimate(capacity, i) <= r
  {
    AdjustmentInterval(capacity, request, i);
    EstimateIsCeiling(capacity, i);
    EstimateIsCeiling(capacity, i + 1);
    forall r | 0 <= r <= request && MemReqToOomAdj(capacity, r) == 1000 - i ensures Estimate(capacity, i) <= r {
      AdjustmentInterval(capacity, r, i);
    }
  }

  /** A guess for the next estimate that is off from the previous one plus a thousandth by at most `slack`. */
  predicate Guesses(capacity: int, prevReq: int, guess: int, slack: int) {
    -1000 * slack <= 1000 * guess - (1000 * prevReq + capacity) <= 1000 * slack
  }

  lemma EstimateRange(capacity: int, i: int)
    requires 0 <= i <= 1000 && capacity >= 0
    ensures 0 <= Estimate(capacity, i) <= capacity
  {
    EstimateIsCeiling(capacity, i);
    MulMonotone(i, 1000, capacity);
    MulMonotone(0, i, capacity);
  }

  // ---- one round of the table

  /** What a round leaves: a request, no request at all, or a panic. */
  datatype Round = Found(req: int) | Missed | Panic

  /** The search downwards: the last request seen that is one adjustment below the previous one. */
  function Down(capacity: int, prevAdj: int, req: int, steps: int, best: Round): Round
    requires capacity > 0
    decreases steps
  {
    var adj := MemReqToOomAdj(capacity, req);
    if steps <= 0 || adj >= prevAdj then best
    else Down(capacity, prevAdj, req - 1, steps - 1, if adj == prevAdj - 1 then Found(req) else best)
  }

  /** The search upwards: the first request with another adjustment, or where the steps end. */
  function Up(capacity: int, prevAdj: int, req: int, steps: int): (r: int)
    requires capacity > 0
    ensures req <= r <= Max(req, req + steps)
    decreases steps
  {
    if steps <= 0 || MemReqToOomAdj(capacity, req) != prevAdj then req
    else Up(capacity, prevAdj, req + 1, steps - 1)
  }

  function Max(a: int, b: int): int {
    if a > b then a else b
  }

  /** A round that starts from the previous request with a guess. */
  function Next(capacity: int, steps: int, prevReq: int, guess: int): Round
    requires capacity > 0
  {
    var prevAdj, currAdj := MemReqToOomAdj(capacity, prevReq), MemReqToOomAdj(capacity, guess);
    if currAdj < prevAdj then Down(capacity, prevAdj, guess, steps, Missed)
    else if currAdj == prevAdj then
      var req := Up(capacity, prevAdj, guess, steps);
      if MemReqToOomAdj(capacity, req) == prevAdj - 1 then Found(req) else Panic
    else Panic
  }

  method SearchDown(capacity: int, prevAdj: int, guess: int, steps: int) returns (found: Round)
    requires capacity > 0
    ensures found == Down(capacity, prevAdj, guess, steps, Missed)
  {
    var currReq, j := guess, 0;
    var currAdj := MemReqToOomAdj(capacity, currReq);
    found := Missed;
    while currAdj < prevAdj && j < steps
      invariant currAdj == MemReqToOomAdj(capacity, currReq)
      invariant Down(capacity, prevAdj, guess, steps, Missed) == Down(capacity, prevAdj, currReq, steps - j, found)
      decreases steps - j
    {
      if currAdj == prevAdj - 1 {
        found := Found(currReq);
      }
      currReq := currReq - 1;
      currAdj := MemReqToOomAdj(capacity, currReq);
      j := j + 1;
    }
  }

  method SearchUp(capacity: int, prevAdj: int, guess: int, steps: int) returns (currReq: int)
    requires capacity > 0
    ensures currReq == Up(capacity, prevAdj, guess, steps)
  {
    currReq := guess;
    var currAdj := MemReqToOomAdj(capacity, currReq);
    var j := 0;
    while currAdj == prevAdj && j < steps
      invariant currAdj == MemReqToOomAdj(capacity, currReq)
      invariant Up(capacity, prevAdj, guess, steps) == Up(capacity, prevAdj, currReq, steps - j)
      decreases steps - j
    {
      currReq := currReq + 1;
      currAdj := MemReqToOomAdj(capacity, currReq);
      j := j + 1;
    }
  }

  method NextEstimate(capacity: int, steps: int, prevReq: int, guess: int) returns (r: Round)
    requires capacity > 0
    ensures r == Next(capacity, steps, prevReq, guess)
  {
    var prevAdj, currAdj := MemReqToOomAdj(capacity, prevReq), MemReqToOomAdj(capacity, guess);
    if currAdj < prevAdj {
      r := SearchDown(capacity, prevAdj, guess, steps);
    } else if currAdj == prevAdj {
      var currReq := SearchUp(capacity, prevAdj, guess, steps);
      currAdj := MemReqToOomAdj(capacity, currReq);
      r := if currAdj == prevAdj - 1 then Found(currReq) else Panic;
    } else {
      r := Panic;
    }
  }

  // ---- what the searches find

  /**
   Starting at or above the smallest request with adjustment 1000 - i, the search downwards finds it
   exactly if it has more steps than the start is above it.
   */
  lemma {:induction false} DownFindsIff(capacity: int, i: int, req: int, steps: int, best: Round)
    requires 1 <= i < 1000 && 1000 <= capacity && 1000 * req <= INT64_MAX
    requires Estimate(capacity, i) <= req && best != Found(Estimate(capacity, i))
    ensures Down(capacity, 1000 - (i - 1), req, steps, best) == Found(Estimate(capacity, i))
            <==> req - Estimate(capacity, i) < steps
    decreases steps
  {
    if steps > 0 {
      EstimateRange(capacity, i);
      EstimateRange(capacity, i - 1);
      EstimatesGrow(capacity, i - 1);
      AdjustmentAtMost(capacity, req, i);
      AdjustmentInterval(capacity, req, i);
      var best' := if MemReqToOomAdj(capacity, req) == 1000 - i then Found(req) else best;
      if req > Estimate(capacity, i) {
        DownFindsIff(capacity, i, req - 1, steps - 1, best');
      } else {
        EstimatesGrow(capacity, i);
        AdjustmentInterval(capacity, req - 1, i - 1);
      }
    }
  }

  lemma {:induction false} UpFinds(capacity: int, i: int, req: int, steps: int)
    requires 1 <= i < 1000 && 1000 <= capacity && 1000 * Estimate(capacity, i) <= INT64_MAX
    requires Estimate(capacity, i - 1) <= req <= Estimate(capacity, i) <= req + steps
    ensures Up(capacity, 1000 - (i - 1), req, steps) == Estimate(capacity, i)
    decreases steps
  {
    EstimateRange(capacity, i - 1);
    AdjustmentInterval(capacity, req, i - 1);
    if req < Estimate(capacity, i) {
      UpFinds(capacity, i, req + 1, steps - 1);
    }
  }

  /** Where the product wraps around, an adjustment is at least 1000. */
  lemma WrappedAdjustment(capacity: int, request: int)
    requires 0 < capacity <= INT64_MAX
    requires INT64_MAX < 1000 * request < 2 * (INT64_MAX + 1) + capacity
    ensures MemReqToOomAdj(capacity, request) >= 1000
  {
    var product := 1000 * request;
    assert Wrap64(product) == product - 2 * (INT64_MAX + 1) < capacity;
    if Wrap64(product) >= 0 {
      QuotientAtLeast(Wrap64(product), capacity, 1);
    } else {
      QuotientAtLeast(-Wrap64(product), capacity, 0);
    }
  }

  // ---- when a round is right

  /** Up to here capacities are floating point numbers. */
  const EXACT := 0x20_0000_0000_0000

  /** The fewest steps a search may have. */
  function MinSteps(capacity: int): int {
    if capacity < EXACT then capacity / 1000 else capacity / 1000 - 1
  }

  /** `steps` is a thousandth of the capacity, cut to an integer after a floating point division. */
  predicate AreSteps(capacity: int, steps: int) {
    if capacity < EXACT then steps == capacity / 1000 else MinSteps(capacity) <= steps <= capacity / 1000 + 1
  }

  /** A guess is off by at most `slack`, and the searches have the steps to make up for that. */
  predicate Ample(capacity: int, slack: int) {
    1 <= slack && 1000 * (slack + 1) <= capacity + 1 - if capacity < EXACT then 0 else 1000
  }

  lemma GuessIsNear(capacity: int, i: int, guess: int, slack: int)
    requires 1 <= i && Guesses(capacity, Estimate(capacity, i - 1), guess, slack)
    ensures Estimate(capacity, i) - slack <= guess <= Estimate(capacity, i) + slack
    ensures Ample(capacity, slack) ==> Estimate(capacity, i - 1) < guess && slack <= MinSteps(capacity)
  {
    EstimateIsCeiling(capacity, i - 1);
    EstimateIsCeiling(capacity, i);
    assert (i - 1) * capacity + capacity == i * capacity;
  }

  /** If the capacity is one short of a multiple of 1000, all steps between estimates are alike. */
  lemma EvenEstimates(capacity: int, i: int)
    requires capacity % 1000 == 999 && 0 <= i < 1000
    ensures Estimate(capacity, i) == i * (capacity / 1000 + 1)
  {
    var n := capacity / 1000 + 1;
    assert capacity == 1000 * n - 1;
    assert i * capacity == 1000 * (i * n) - i;
  }

  lemma EstimateStep(capacity: int, i: int)
    ensures Estimate(capacity, i) + capacity / 1000 <= Estimate(capacity, i + 1) <= Estimate(capacity, i) + capacity / 1000 + 1
  {
    EstimateIsCeiling(capacity, i);
    EstimateIsCeiling(capacity, i + 1);
    assert (i + 1) * capacity == i * capacity + capacity;
  }

  lemma GuessWithinSteps(capacity: int, i: int, guess: int, slack: int)
    requires 1 <= i < 1000 && Ample(capacity, slack) && Guesses(capacity, Estimate(capacity, i - 1), guess, slack)
    ensures guess - Estimate(capacity, i) < MinSteps(capacity)
  {
    EstimateStep(capacity, i - 1);
    if capacity % 1000 == 999 {
      EvenEstimates(capacity, i - 1);
      EvenEstimates(capacity, i);
      assert i * (capacity / 1000 + 1) == (i - 1) * (capacity / 1000 + 1) + (capacity / 1000 + 1);
    }
  }

  /** Neither the guess nor the wanted estimate wraps around when multiplied by 1000. */
  predicate Representable(capacity: int, i: int, guess: int) {
    1000 * Max(guess, Estimate(capacity, i)) <= INT64_MAX
  }

  /** The searches have the steps to get from the guess to the wanted estimate. */
  predicate Near(capacity: int, i: int, guess: int, steps: int) {
    && Estimate(capacity, i - 1) <= guess && Estimate(capacity, i) - steps <= guess < Estimate(capacity, i) + steps
    && 1000 * guess <= 1000 * Estimate(capacity, i - 1) + 2 * capacity - 999
  }

  lemma AmpleIsNear(capacity: int, i: int, guess: int, slack: int, steps: int)
    requires 1 <= i < 1000 && Ample(capacity, slack) && AreSteps(capacity, steps)
    requires Guesses(capacity, Estimate(capacity, i - 1), guess, slack)
    ensures Near(capacity, i, guess, steps)
  {
    GuessIsNear(capacity, i, guess, slack);
    GuessWithinSteps(capacity, i, guess, slack);
  }

  /**
   A round from the right request and a near guess finds the next request if the products it needs
   do not wrap around, and panics otherwise.
   */
  lemma RoundIsExact(capacity: int, i: int, guess: int, steps: int)
    requires 1 <= i < 1000 && 1000 <= capacity <= INT64_MAX && AreSteps(capacity, steps) && Near(capacity, i, guess, steps)
    requires 1000 * Estimate(capacity, i - 1) <= INT64_MAX
    ensures Next(capacity, steps, Estimate(capacity, i - 1), guess) ==
            if Representable(capacity, i, guess) then Found(Estimate(capacity, i)) else Panic
    ensures MemReqToOomAdj(capacity, Estimate(capacity, i - 1)) == 1000 - (i - 1)
  {
    EstimateRange(capacity, i - 1);
    EstimatesGrow(capacity, i - 1);
    AdjustmentInterval(capacity, Estimate(capacity, i - 1), i - 1);
    if Representable(capacity, i, guess) {
      RoundFinds(capacity, i, guess, steps);
    } else {
      RoundPanics(capacity, i, guess, steps);
    }
  }

  lemma RoundFinds(capacity: int, i: int, guess: int, steps: int)
    requires 1 <= i < 1000 && 1000 <= capacity && Near(capacity, i, guess, steps) && Representable(capacity, i, guess)
    requires MemReqToOomAdj(capacity, Estimate(capacity, i - 1)) == 1000 - (i - 1)
    ensures Next(capacity, steps, Estimate(capacity, i - 1), guess) == Found(Estimate(capacity, i))
  {
    EstimateRange(capacity, i - 1);
    EstimatesGrow(capacity, i - 1);
    EstimatesGrow(capacity, i);
    AdjustmentInterval(capacity, guess, i - 1);
    AdjustmentAtMost(capacity, guess, i);
    AdjustmentInterval(capacity, Estimate(capacity, i), i);
    if guess >= Estimate(capacity, i) {
      DownFindsIff(capacity, i, guess, steps, Missed);
    } else {
      UpFinds(capacity, i, guess, steps);
    }
  }

  lemma RoundPanics(capacity: int, i: int, guess: int, steps: int)
    requires 1 <= i < 1000 && 1000 <= capacity <= INT64_MAX && AreSteps(capacity, steps) && Near(capacity, i, guess, steps)
    requires !Representable(capacity, i, guess) && 1000 * Estimate(capacity, i - 1) <= INT64_MAX
    requires MemReqToOomAdj(capacity, Estimate(capacity, i - 1)) == 1000 - (i - 1)
    ensures Next(capacity, steps, Estimate(capacity, i - 1), guess) == Panic
  {
    EstimateRange(capacity, i - 1);
    if 1000 * guess > INT64_MAX {
      WrappedAdjustment(capacity, guess);
    } else {
      AdjustmentInterval(capacity, guess, i - 1);
    }
    if MemReqToOomAdj(capacity, guess) == 1000 - (i - 1) {
      var req := Up(capacity, 1000 - (i - 1), guess, steps);
      if 1000 * req > INT64_MAX {
        assert i == 1 || 1000 * guess <= INT64_MAX;
        assert Estimate(capacity, 0) == 0;
        WrappedAdjustment(capacity, req);
      } else {
        AdjustmentAtMost(capacity, req, i);
      }
    }
  }

  // ---- the whole table

  /** How far the table is: the request of the last round, and the entries so far. */
  datatype Progress = Panicked | At(prevReq: int, table: map<int, int>)

  /** The table after a number of rounds, for a way of guessing. */
  ghost function Rounds(capacity: int, steps: int, guess: int -> int, n: nat): Progress
    requires capacity > 0
  {
    if n == 0 then At(0, map[1000 := 0, 0 := capacity])
    else
      var p := Rounds(capacity, steps, guess, n - 1);
      if p.Panicked? then Panicked
      else After(capacity, p, Next(capacity, steps, p.prevReq, guess(p.prevReq)))
  }

  /** A request found is entered; without one the next round starts from 0, the default of a map. */
  ghost function After(capacity: int, p: Progress, r: Round): Progress
    requires capacity > 0 && p.At?
  {
    match r
    case Panic => Panicked
    case Missed => At(0, p.table)
    case Found(req) => At(req, p.table[MemReqToOomAdj(capacity, p.prevReq) - 1 := req])
  }

  /** The table has the smallest request with adjustment 1000 - i. */
  ghost predicate Holds(adjToReq: map<int, int>, capacity: int, i: int) {
    1000 - i in adjToReq && adjToReq[1000 - i] == Estimate(capacity, i)
  }

  /** The table has exactly the smallest request of each adjustment. */
  ghost predicate Exact(capacity: int, adjToReq: map<int, int>) {
    && (forall i :: 0 <= i <= 1000 ==> Holds(adjToReq, capacity, i))
    && (forall a :: a in adjToReq ==> 0 <= a <= 1000)
  }

  /** Whatever the previous request is, the guess is off by at most `slack`. */
  ghost predicate AreGuesses(capacity: int, guess: int -> int, slack: int) {
    forall p :: Guesses(capacity, p, guess(p), slack)
  }

  /** No product of the table wraps around. */
  ghost predicate AllRepresentable(capacity: int, guess: int -> int, n: nat) {
    forall i :: 1 <= i <= n ==> RoundRepresentable(capacity, guess, i)
  }

  ghost predicate RoundRepresentable(capacity: int, guess: int -> int, i: int) {
    Representable(capacity, i, guess(Estimate(capacity, i - 1)))
  }

  /** Rounds up to n have found all their requests. */
  ghost predicate RightSoFar(capacity: int, p: Progress, n: nat) {
    && p.At? && p.prevReq == Estimate(capacity, n) && Holds(p.table, capacity, 1000)
    && (forall k :: 0 <= k <= n ==> Holds(p.table, capacity, k))
    && (forall a :: a in p.table ==> 0 <= a <= 1000)
  }

  lemma RightAtFirst(capacity: int)
    requires capacity > 0
    ensures RightSoFar(capacity, At(0, map[1000 := 0, 0 := capacity]), 0)
  {
    assert Estimate(capacity, 0) == 0 && Estimate(capacity, 1000) == capacity;
  }

  lemma RightOneMore(capacity: int, p: Progress, n: nat)
    requires capacity > 0 && n < 999 && RightSoFar(capacity, p, n)
    requires MemReqToOomAdj(capacity, p.prevReq) == 1000 - n
    ensures RightSoFar(capacity, After(capacity, p, Found(Estimate(capacity, n + 1))), n + 1)
  {
    var q := After(capacity, p, Found(Estimate(capacity, n + 1)));
    forall k | 0 <= k <= n + 1 || k == 1000 ensures Holds(q.table, capacity, k) {
      assert k <= n || k == 1000 ==> Holds(p.table, capacity, k);
    }
  }

  /**
   With ample capacity and any such guesses, the table is right after every round if no product wraps
   around, and the first product that does is a panic.
   */
  lemma {:induction false} RoundsAreExact(capacity: int, guess: int -> int, slack: int, steps: int, n: nat)
    requires n < 1000 && capacity <= INT64_MAX && Ample(capacity, slack) && AreSteps(capacity, steps)
    requires AreGuesses(capacity, guess, slack)
    ensures var p := Rounds(capacity, steps, guess, n);
            if AllRepresentable(capacity, guess, n) then RightSoFar(capacity, p, n) else p.Panicked?
  {
    if n == 0 {
      RightAtFirst(capacity);
    } else {
      RoundsAreExact(capacity, guess, slack, steps, n - 1);
      if AllRepresentable(capacity, guess, n - 1) {
        var prev := Estimate(capacity, n - 1);
        PreviousRepresentable(capacity, guess, n);
        assert Guesses(capacity, prev, guess(prev), slack);
        AmpleIsNear(capacity, n, guess(prev), slack, steps);
        RoundIsExact(capacity, n, guess(prev), steps);
        assert RoundRepresentable(capacity, guess, n) == Representable(capacity, n, guess(prev));
        if Representable(capacity, n, guess(prev)) {
          RightOneMore(capacity, Rounds(capacity, steps, guess, n - 1), n - 1);
        }
      }
    }
  }

  lemma PreviousRepresentable(capacity: int, guess: int -> int, n: nat)
    requires 1 <= n && AllRepresentable(capacity, guess, n - 1)
    ensures 1000 * Estimate(capacity, n - 1) <= INT64_MAX
  {
    if n > 1 {
      assert RoundRepresentable(capacity, guess, n - 1);
    } else {
      assert Estimate(capacity, 0) == 0;
    }
  }

  /**
   Fills the table, with floating point guesses and a number of steps as given. For ample capacities
   it is exactly the table wanted, unless a product wraps around, which always ends in a panic.
   */
  method CalculateEstimates(capacity: int, steps: int, guess: int -> int, ghost slack: int)
    returns (panicked: bool, adjToReq: map<int, int>)
    requires 0 < capacity <= INT64_MAX
    ensures panicked <==> Rounds(capacity, steps, guess, 999).Panicked?
    ensures !panicked ==> adjToReq == Rounds(capacity, steps, guess, 999).table
    ensures Ample(capacity, slack) && AreSteps(capacity, steps) && AreGuesses(capacity, guess, slack) ==>
              && (panicked <==> !AllRepresentable(capacity, guess, 999))
              && (!panicked ==> Exact(capacity, adjToReq))
  {
    if Ample(capacity, slack) && AreSteps(capacity, steps) && AreGuesses(capacity, guess, slack) {
      RoundsAreExact(capacity, guess, slack, steps, 999);
    }
    adjToReq := map[1000 := 0, 0 := capacity];
    var prevReq := 0;
    for i := 1 to 1000
      invariant Rounds(capacity, steps, guess, i - 1) == At(prevReq, adjToReq)
    {
      var r := NextEstimate(capacity, steps, prevReq, guess(prevReq));
      match r {
        case Panic =>
          PanicStays(capacity, steps, guess, i, 999);
          return true, map[];
        case Missed =>
          prevReq := 0;
        case Found(req) =>
          adjToReq := adjToReq[MemReqToOomAdj(capacity, prevReq) - 1 := req];
          prevReq := req;
      }
    }
    panicked := false;
  }

  lemma {:induction false} PanicStays(capacity: int, steps: int, guess: int -> int, m: nat, n: nat)
    requires capacity > 0 && m <= n && Rounds(capacity, steps, guess, m).Panicked?
    ensures Rounds(capacity, steps, guess, n).Panicked?
  {
    if m < n {
      PanicStays(capacity, steps, guess, m, n - 1);
    }
  }

  // ---- which capacities are right for every guess

  /** Whatever the guesses within the slack are, the table is right. */
  ghost predicate AlwaysRight(capacity: int, slack: int)
    requires capacity > 0
  {
    forall guess: int -> int, steps: int :: AreGuesses(capacity, guess, slack) && AreSteps(capacity, steps) ==>
      IsRight(capacity, Rounds(capacity, steps, guess, 999))
  }

  ghost predicate IsRight(capacity: int, p: Progress) {
    p.At? && Exact(capacity, p.table)
  }

  /** The largest product any guess within the slack leads to does not wrap around. */
  predicate Small(capacity: int, slack: int) {
    1000 * (Estimate(capacity, 998) + capacity / 1000 + slack) <= INT64_MAX
  }

  /** All guesses off by at most `slack` give the right table if and only if the capacity is neither too small nor too large. */
  lemma AlwaysRightIff(capacity: int, slack: int)
    requires 0 < capacity <= INT64_MAX && 1 <= slack
    ensures AlwaysRight(capacity, slack) <==> Ample(capacity, slack) && Small(capacity, slack)
  {
    if Ample(capacity, slack) && Small(capacity, slack) {
      forall guess: int -> int, steps: int | AreGuesses(capacity, guess, slack) && AreSteps(capacity, steps)
        ensures IsRight(capacity, Rounds(capacity, steps, guess, 999))
      {
        SmallIsRepresentable(capacity, guess, slack);
        RoundsAreExact(capacity, guess, slack, steps, 999);
      }
    } else {
      SomeGuessIsWrong(capacity, slack);
    }
  }

  lemma {:induction false} EstimatesMonotone(capacity: int, i: int, j: int)
    requires capacity > 0 && i <= j
    ensures Estimate(capacity, i) <= Estimate(capacity, j)
  {
    MulMonotone(i, j, capacity);
  }

  lemma SmallIsRepresentable(capacity: int, guess: int -> int, slack: int)
    requires 0 < capacity && 1 <= slack && Small(capacity, slack) && AreGuesses(capacity, guess, slack)
    ensures AllRepresentable(capacity, guess, 999)
  {
    hide Estimate;
    forall i | 1 <= i <= 999 ensures RoundRepresentable(capacity, guess, i) {
      var prev := Estimate(capacity, i - 1);
      EstimatesMonotone(capacity, i - 1, 998);
      EstimateStep(capacity, i - 1);
      assert Guesses(capacity, prev, guess(prev), slack);
    }
  }

  /** A guess that is wrong in one place, and the previous request plus a thousandth elsewhere. */
  ghost function WrongGuess(capacity: int, i: int, wrong: int): int -> int {
    p => if p == Estimate(capacity, i - 1) then wrong else p + capacity / 1000
  }

  /** The table does not get right at i: each round starts before i, or has left it behind. */
  ghost predicate WrongAt(capacity: int, p: Progress, i: int)
    requires capacity > 0
  {
    p.At? ==>
      && !Holds(p.table, capacity, i)
      && (StartsBefore(capacity, p.prevReq, i) || MemReqToOomAdj(capacity, p.prevReq) <= 1000 - i)
  }

  ghost predicate StartsBefore(capacity: int, req: int, i: int) {
    1000 * req <= INT64_MAX && exists k :: 0 <= k < i && req == Estimate(capacity, k)
  }

  /** A request found has the adjustment next to the previous one. */
  lemma {:induction false} FoundIsNext(capacity: int, steps: int, prevReq: int, guess: int)
    requires capacity > 0
    ensures var r := Next(capacity, steps, prevReq, guess);
            r.Found? ==> MemReqToOomAdj(capacity, r.req) == MemReqToOomAdj(capacity, prevReq) - 1
  {
    DownIsNext(capacity, MemReqToOomAdj(capacity, prevReq), guess, steps, Missed);
  }

  lemma {:induction false} DownIsNext(capacity: int, prevAdj: int, req: int, steps: int, best: Round)
    requires capacity > 0 && (best.Found? ==> MemReqToOomAdj(capacity, best.req) == prevAdj - 1) && !best.Panic?
    ensures var r := Down(capacity, prevAdj, req, steps, best);
            !r.Panic? && (r.Found? ==> MemReqToOomAdj(capacity, r.req) == prevAdj - 1)
    decreases steps
  {
    var adj := MemReqToOomAdj(capacity, req);
    if steps > 0 && adj < prevAdj {
      DownIsNext(capacity, prevAdj, req - 1, steps - 1, if adj == prevAdj - 1 then Found(req) else best);
    }
  }

  lemma NearestIsNear(capacity: int, k: int)
    requires 1 <= k && 1000 <= capacity
    ensures Near(capacity, k, Estimate(capacity, k - 1) + capacity / 1000, MinSteps(capacity))
  {
    EstimateStep(capacity, k - 1);
  }

  lemma WrongOneMore(capacity: int, i: int, wrong: int, p: Progress)
    requires 1 <= i < 1000 && 1000 <= capacity <= INT64_MAX && p.At? && WrongAt(capacity, p, i)
    requires 1000 * Estimate(capacity, i - 1) <= INT64_MAX ==>
               Next(capacity, MinSteps(capacity), Estimate(capacity, i - 1), wrong) != Found(Estimate(capacity, i))
    ensures WrongAt(capacity, After(capacity, p, Next(capacity, MinSteps(capacity), p.prevReq,
                                                      WrongGuess(capacity, i, wrong)(p.prevReq))), i)
  {
    var steps, prev := MinSteps(capacity), p.prevReq;
    var r := Next(capacity, steps, prev, WrongGuess(capacity, i, wrong)(prev));
    FoundIsNext(capacity, steps, prev, WrongGuess(capacity, i, wrong)(prev));
    StartIsBefore(capacity, i);
    if StartsBefore(capacity, prev, i) {
      var k :| 0 <= k < i && prev == Estimate(capacity, k);
      NearestIsNear(capacity, k + 1);
      RoundIsExact(capacity, k + 1, prev + capacity / 1000, steps);
      if k < i - 1 {
        EstimatesMonotone(capacity, k + 1, i - 1);
        EstimatesGrow(capacity, k);
        assert r == Panic || r == Found(Estimate(capacity, k + 1));
        if r.Found? {
          assert StartsBefore(capacity, r.req, i);
        }
      }
    }
  }

  lemma StartIsBefore(capacity: int, i: int)
    requires 1 <= i
    ensures StartsBefore(capacity, 0, i)
  {
    assert Estimate(capacity, 0) == 0;
  }

  lemma {:induction false} WrongRounds(capacity: int, i: int, wrong: int, n: nat)
    requires 1 <= i < 1000 && 1000 <= capacity <= INT64_MAX
    requires 1000 * Estimate(capacity, i - 1) <= INT64_MAX ==>
               Next(capacity, MinSteps(capacity), Estimate(capacity, i - 1), wrong) != Found(Estimate(capacity, i))
    ensures WrongAt(capacity, Rounds(capacity, MinSteps(capacity), WrongGuess(capacity, i, wrong), n), i)
  {
    if n == 0 {
      StartIsBefore(capacity, i);
    } else {
      WrongRounds(capacity, i, wrong, n - 1);
      var p := Rounds(capacity, MinSteps(capacity), WrongGuess(capacity, i, wrong), n - 1);
      if p.At? {
        WrongOneMore(capacity, i, wrong, p);
      }
    }
  }

  /** If some guess within the slack misleads some round, not all tables are right. */
  lemma WrongRoundIsWrong(capacity: int, slack: int, i: int, wrong: int)
    requires 1 <= i < 1000 && 1000 <= capacity <= INT64_MAX && 1 <= slack
    requires Guesses(capacity, Estimate(capacity, i - 1), wrong, slack)
    requires 1000 * Estimate(capacity, i - 1) <= INT64_MAX ==>
               Next(capacity, MinSteps(capacity), Estimate(capacity, i - 1), wrong) != Found(Estimate(capacity, i))
    ensures !AlwaysRight(capacity, slack)
  {
    var guess := WrongGuess(capacity, i, wrong);
    WrongRounds(capacity, i, wrong, 999);
    forall p ensures Guesses(capacity, p, guess(p), slack) {
    }
    assert AreGuesses(capacity, guess, slack) && AreSteps(capacity, MinSteps(capacity));
    assert !IsRight(capacity, Rounds(capacity, MinSteps(capacity), guess, 999));
  }

  /** A guess as far above the wanted estimate as there are steps misleads a round. */
  lemma TooHighIsWrong(capacity: int, i: int)
    requires 1 <= i < 1000 && 1000 <= capacity <= INT64_MAX && 1000 * Estimate(capacity, i - 1) <= INT64_MAX
    requires i == 1 || Estimate(capacity, i) == Estimate(capacity, i - 1) + capacity / 1000
    ensures Next(capacity, MinSteps(capacity), Estimate(capacity, i - 1), Estimate(capacity, i) + MinSteps(capacity))
            != Found(Estimate(capacity, i))
  {
    var n := MinSteps(capacity);
    var guess := Estimate(capacity, i) + n;
    EstimateStep(capacity, i - 1);
    EstimateRange(capacity, i - 1);
    EstimatesGrow(capacity, i - 1);
    AdjustmentInterval(capacity, Estimate(capacity, i - 1), i - 1);
    assert Estimate(capacity, 0) == 0;
    if 1000 * guess > INT64_MAX {
      WrappedAdjustment(capacity, guess);
    } else {
      AdjustmentAtMost(capacity, guess, i);
      DownFindsIff(capacity, i, guess, n, Missed);
    }
  }

  lemma EstimateFromAbove(capacity: int, i: int, n: int, short: int)
    requires capacity == 1000 * n - short
    ensures Estimate(capacity, i) == i * n + (999 - i * short) / 1000
  {
    assert i * capacity == 1000 * (i * n) - i * short;
  }

  /** The first i for which i times s reaches 1000. */
  lemma ReachesThousand(s: int) returns (i: int)
    requires 2 <= s <= 999
    ensures 2 <= i <= 500 && (i - 1) * s < 1000 <= i * s < 2000 && i * s == (i - 1) * s + s && 0 <= (i - 1) * s
  {
    i := 1;
    while i * s < 1000
      invariant 1 <= i <= 500 && 0 <= (i - 1) * s < 1000 && 2 * i <= i * s == (i - 1) * s + s
      decreases 1000 - i * s
    {
      i := i + 1;
    }
  }

  /** A round whose estimate is just a thousandth, cut to an integer, above the previous one. */
  lemma ShortStep(capacity: int) returns (i: int)
    requires 1 <= capacity % 1000 <= 998
    ensures 2 <= i <= 500 && Estimate(capacity, i) == Estimate(capacity, i - 1) + capacity / 1000
  {
    var n, s := capacity / 1000 + 1, 1000 - capacity % 1000;
    i := ReachesThousand(s);
    EstimateFromAbove(capacity, i, n, s);
    EstimateFromAbove(capacity, i - 1, n, s);
    OneMore(i - 1, n);
  }

  lemma OneMore(i: int, n: int)
    ensures (i + 1) * n == i * n + n
  {
  }

  lemma LargeIsWrong(capacity: int, slack: int)
    requires capacity <= INT64_MAX && Ample(capacity, slack) && !Small(capacity, slack)
    ensures !AlwaysRight(capacity, slack)
  {
    hide Estimate, AlwaysRight, Next;
    var n := capacity / 1000;
    var guess := Estimate(capacity, 998) + n + slack;
    if 1000 * Estimate(capacity, 998) <= INT64_MAX {
      AmpleIsNear(capacity, 999, guess, slack, MinSteps(capacity));
      RoundIsExact(capacity, 999, guess, MinSteps(capacity));
    }
    WrongRoundIsWrong(capacity, slack, 999, guess);
  }

  lemma TooHighIsGuessed(capacity: int, slack: int, i: int)
    requires 1 <= i < 1000 && 1000 <= capacity <= INT64_MAX && 1 <= slack
    requires i == 1 || Estimate(capacity, i) == Estimate(capacity, i - 1) + capacity / 1000
    requires Guesses(capacity, Estimate(capacity, i - 1), Estimate(capacity, i) + MinSteps(capacity), slack)
    ensures !AlwaysRight(capacity, slack)
  {
    hide Estimate, AlwaysRight, Next;
    if 1000 * Estimate(capacity, i - 1) <= INT64_MAX {
      TooHighIsWrong(capacity, i);
    }
    WrongRoundIsWrong(capacity, slack, i, Estimate(capacity, i) + MinSteps(capacity));
  }

  lemma SmallIsWrong(capacity: int, slack: int)
    requires 1000 <= capacity <= INT64_MAX && 1 <= slack && !Ample(capacity, slack)
    ensures !AlwaysRight(capacity, slack)
  {
    hide AlwaysRight;
    var n := capacity / 1000;
    if capacity % 1000 == 0 || slack > MinSteps(capacity) {
      assert Estimate(capacity, 0) == 0 && Estimate(capacity, 1) <= n + 1;
      TooHighIsGuessed(capacity, slack, 1);
    } else {
      var i := ShortStep(capacity);
      TooHighIsGuessed(capacity, slack, i);
    }
  }

  lemma SomeGuessIsWrong(capacity: int, slack: int)
    requires 0 < capacity <= INT64_MAX && 1 <= slack && !(Ample(capacity, slack) && Small(capacity, slack))
    ensures !AlwaysRight(capacity, slack)
  {
    if capacity < 1000 {
      var guess := (p: int) => p;
      TinyCapacityFails(capacity, guess, 999);
      assert AreGuesses(capacity, guess, slack) && AreSteps(capacity, 0);
    } else if Ample(capacity, slack) {
      LargeIsWrong(capacity, slack);
    } else {
      SmallIsWrong(capacity, slack);
    }
  }

  /** Below 1000 bytes the searches have no steps: no guess at all gives a table with more than the two initial entries. */
  lemma {:induction false} TinyCapacityFails(capacity: int, guess: int -> int, n: nat)
    requires 0 < capacity < 1000
    ensures var p := Rounds(capacity, 0, guess, n);
            (p.Panicked? || p == At(0, map[1000 := 0, 0 := capacity])) && !IsRight(capacity, p)
  {
    assert !Holds(map[1000 := 0, 0 := capacity], capacity, 1);
    if n > 0 {
      TinyCapacityFails(capacity, guess, n - 1);
    }
  }

  /** If the last estimate leaves room for the slack nothing panics; if it does not fit itself, every guess panics. */
  lemma LargeCapacityPanics(capacity: int, guess: int -> int, slack: int, steps: int)
    requires capacity <= INT64_MAX && Ample(capacity, slack) && AreSteps(capacity, steps) && AreGuesses(capacity, guess, slack)
    ensures 1000 * (Estimate(capacity, 999) + slack) <= INT64_MAX ==> IsRight(capacity, Rounds(capacity, steps, guess, 999))
    ensures 1000 * Estimate(capacity, 999) > INT64_MAX ==> Rounds(capacity, steps, guess, 999).Panicked?
  {
    RoundsAreExact(capacity, guess, slack, steps, 999);
    if 1000 * Estimate(capacity, 999) > INT64_MAX {
      assert !RoundRepresentable(capacity, guess, 999);
    }
    if 1000 * (Estimate(capacity, 999) + slack) <= INT64_MAX {
      forall i | 1 <= i <= 999 ensures RoundRepresentable(capacity, guess, i) {
        var prev := Estimate(capacity, i - 1);
        assert Guesses(capacity, prev, guess(prev), slack);
        GuessIsNear(capacity, i, guess(prev), slack);
        EstimatesMonotone(capacity, i, 999);
      }
    }
  }

  /**
   A capacity of 10^16: in round 923 the product of the guess wraps around, its adjustment exceeds the
   previous one, and the round panics.
   */
  lemma LargeCapacityFails()
    ensures var capacity, prev, guess := 10_000_000_000_000_000, 9_220_000_000_000_000, 9_230_000_000_000_000;
            && prev == Estimate(capacity, 922) && Guesses(capacity, prev, guess, 1)
            && MemReqToOomAdj(capacity, guess) > MemReqToOomAdj(capacity, prev)
            && Next(capacity, 10_000_000_000_000, prev, guess) == Panic
  {
  }

  /** A capacity of 1500 is right for no slack: in round 2 a guess of 4 after 2 ends there instead of at 3. */
  lemma SmallCapacityFails()
    ensures Estimate(1500, 1) == 2 && Guesses(1500, 2, 4, 1) && Next(1500, 1, 2, 4) != Found(Estimate(1500, 2))
  {
    assert Estimate(1500, 2) == 3;
    TooHighIsWrong(1500, 2);
  }

  /** The estimate for a burstable adjustment, unless it reaches the memory limit. */
  function OomAdjToMemReq(adjToReq: map<int, int>, oomAdj: int, memLimit: int): Option<int> {
    if oomAdj < 3 || oomAdj > 999 then None
    else
      var req := if oomAdj in adjToReq then adjToReq[oomAdj] else 0;
      if req < memLimit || memLimit == 0 then Some(req) else None
  }

  /**
   A container whose adjustment came from its request gets an estimate that is at most the request
   and less than a thousandth of the capacity below it. No estimate is given only if the request
   is at the edges of the capacity or the estimate reaches the limit.
   */
  lemma EstimateRoundTrip(capacity: int, adjToReq: map<int, int>, request: int, memLimit: int)
    requires capacity > 0 && 0 <= request <= capacity && 1000 * request <= INT64_MAX
    requires forall i :: 0 <= i <= 1000 ==> Holds(adjToReq, capacity, i)
    ensures var adj := MemReqToOomAdj(capacity, request);
            match OomAdjToMemReq(adjToReq, adj, memLimit)
            case Some(estimate) => estimate <= request && 1000 * (request - estimate) < capacity
            case None => 1000 * request < capacity || 1000 * request >= 998 * capacity || 0 != memLimit <= request
  {
    var i := 1000 - MemReqToOomAdj(capacity, request);
    EstimateOfRequest(capacity, request, i);
    AdjustmentInterval(capacity, request, i);
    AdjustmentAtMost(capacity, request, 1001);
    EstimateIsCeiling(capacity, 1001);
    EstimateIsCeiling(capacity, i);
    EstimateIsCeiling(capacity, 1);
    AdjustmentAtMost(capacity, request, 1);
    AdjustmentAtMost(capacity, request, 998);
    EstimateIsCeiling(capacity, 998);
    AdjustmentAtMost(capacity, request, 0);
    EstimateIsCeiling(capacity, 0);
    assert Holds(adjToReq, capacity, i);
  }

}

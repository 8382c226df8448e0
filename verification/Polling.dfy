/** The polling loop of base/module.h: a worker that sleeps until absolute ticks and runs late
    queries back to back.

    Times are integers in clock units. The clock moves only while a query runs, by that query's
    duration, and while the worker sleeps, to the time slept for. */
module Polling {

  const UNITS_PER_SECOND := 1_000_000_000

  // ---------- the lag behind the ticks ----------

  /** How much queries i, ..., j - 1 overran a period of p. */
  function Excess(d: seq<int>, p: int, i: nat, j: nat): int
    requires i <= j <= |d|
  {
    if i == j then 0 else Excess(d, p, i, j - 1) + (d[j - 1] - p)
  }

  function Max(a: int, b: int): int {
    if a >= b then a else b
  }

  /** The lag with which query k starts: zero, or the largest excess of any run of queries ending just
      before it. */
  function Lag(d: seq<int>, p: int, k: nat): int
    requires k <= |d|
  {
    MaxExcess(d, p, 0, k)
  }

  /** The maximum of 0 and Excess(d, p, i, k) over lo <= i < k. */
  function MaxExcess(d: seq<int>, p: int, lo: nat, k: nat): int
    requires lo <= k <= |d|
    decreases k - lo
  {
    if lo == k then 0 else Max(Excess(d, p, lo, k), MaxExcess(d, p, lo + 1, k))
  }

  lemma {:induction false} MaxExcessIsMax(d: seq<int>, p: int, lo: nat, k: nat)
    requires lo <= k <= |d|
    ensures MaxExcess(d, p, lo, k) >= 0
    ensures forall i :: lo <= i < k ==> Excess(d, p, i, k) <= MaxExcess(d, p, lo, k)
    ensures MaxExcess(d, p, lo, k) == 0 || exists i :: lo <= i < k && Excess(d, p, i, k) == MaxExcess(d, p, lo, k)
    decreases k - lo
  {
    if lo < k {
      MaxExcessIsMax(d, p, lo + 1, k);
      assert Excess(d, p, lo, k) <= MaxExcess(d, p, lo, k);
    }
  }

  /** The lag obeys the recurrence of a queue: each query adds its excess, and an early finish waits. */
  lemma {:induction false} LagRecurrence(d: seq<int>, p: int, lo: nat, k: nat)
    requires lo <= k < |d|
    ensures MaxExcess(d, p, lo, k + 1) == Max(0, MaxExcess(d, p, lo, k) + (d[k] - p))
    decreases k - lo
  {
    if lo < k {
      LagRecurrence(d, p, lo + 1, k);
    } else {
      assert Excess(d, p, k, k + 1) == Excess(d, p, k, k) + (d[k] - p);
    }
  }

  // ---------- the worker ----------

  /** Query k (from 0) starts on its tick, s0 + (k + 1) * p, plus its lag. */
  ghost predicate IsSchedule(s0: int, p: int, d: seq<int>, starts: seq<int>) {
    && |starts| == |d|
    && forall k :: 0 <= k < |d| ==> starts[k] == s0 + (k + 1) * p + Lag(d, p, k)
  }

  /** An initial query of no duration delays nothing. */
  lemma {:induction false} StartsOnTime(d: seq<int>, p: int, k: nat)
    requires p >= 0 && k <= |d|
    ensures Lag([0] + d, p, k + 1) == Lag(d, p, k)
  {
    LagRecurrence([0] + d, p, 0, k);
    if k > 0 {
      StartsOnTime(d, p, k - 1);
      LagRecurrence(d, p, 0, k - 1);
    }
  }

  /** The schedule step by step: each query starts on its tick or when the one before it ends, whichever is
      later, and the first one no earlier than the worker. */
  ghost predicate StepByStep(s0: int, p: int, d: seq<int>, starts: seq<int>) {
    && |starts| == |d|
    && forall k :: 0 <= k < |d| ==>
         var tick, free := s0 + (k + 1) * p, if k == 0 then s0 else starts[k - 1] + d[k - 1];
         starts[k] == if tick >= free then tick else free
  }

  /** Start times that are ticks plus lag, as if an extra query of no duration came first. */
  ghost predicate Lagged(s0: int, p: int, d: seq<int>, starts: seq<int>) {
    && |starts| == |d|
    && forall k :: 0 <= k < |d| ==> starts[k] == s0 + (k + 1) * p + Lag([0] + d, p, k + 1)
  }

  lemma LaggedSteps(s0: int, p: int, d: seq<int>, starts: seq<int>)
    requires Lagged(s0, p, d, starts)
    ensures StepByStep(s0, p, d, starts)
    ensures p >= 0 ==> IsSchedule(s0, p, d, starts)
  {
    forall k | 0 <= k < |d|
      ensures starts[k] == Max(s0 + (k + 1) * p, if k == 0 then s0 else starts[k - 1] + d[k - 1])
    {
      LagRecurrence([0] + d, p, 0, k);
      assert (k + 1) * p == k * p + p;
      assert k > 0 ==> starts[k - 1] == s0 + k * p + Lag([0] + d, p, k);
    }
    if p >= 0 {
      forall k | 0 <= k < |d|
        ensures Lag([0] + d, p, k + 1) == Lag(d, p, k)
      {
        StartsOnTime(d, p, k);
      }
    }
  }

  /** The worker of PollingModule::Start, for a run in which the abort flag is seen set after |d|
      queries; d holds the durations of those queries. Returns the start time of each. For a negative
      interval the worker is late from the outset, as after an extra query of no duration. */
  method Work(pollInterval: int, s0: int, d: seq<int>) returns (starts: seq<int>)
    ensures pollInterval >= 0 ==> IsSchedule(s0, pollInterval * 1_000_000_000, d, starts)
    ensures Lagged(s0, pollInterval * 1_000_000_000, d, starts)
    ensures StepByStep(s0, pollInterval * 1_000_000_000, d, starts)
  {
    var next := s0;
    var now := next;
    var aborted := |d| == 0;
    starts := [];
    ghost var p, e := pollInterval * UNITS_PER_SECOND, [0] + d;
    while !aborted
      invariant |starts| <= |d| && (aborted <==> |starts| == |d|)
      invariant next == s0 + |starts| * p
      invariant now == next + Lag(e, p, |starts|) + e[|starts|]
      invariant forall k :: 0 <= k < |starts| ==> starts[k] == s0 + (k + 1) * p + Lag(e, p, k + 1)
      decreases |d| - |starts|
    {
      LagRecurrence(e, p, 0, |starts|);
      next := next + pollInterval * UNITS_PER_SECOND;
      // sleep_until returns at once when the time has passed.
      now := if now < next then next else now;
      var duration := d[|starts|];
      starts := starts + [now];
      now := now + duration;
      aborted := |starts| == |d|;
    }
    LaggedSteps(s0, p, d, starts);
  }

  /** The closed form, for a query number k counted from 0: its lag is the maximum of zero and of
      the summed overruns of every run of queries that ends just before it. */
  lemma LagClosedForm(d: seq<int>, p: int, k: nat)
    requires k <= |d|
    ensures Lag(d, p, k) >= 0
    ensures forall i :: 0 <= i < k ==> Excess(d, p, i, k) <= Lag(d, p, k)
    ensures Lag(d, p, k) == 0 || exists i :: 0 <= i < k && Excess(d, p, i, k) == Lag(d, p, k)
  {
    MaxExcessIsMax(d, p, 0, k);
  }

  lemma {:induction false} ExcessBound(d: seq<int>, p: int, i: nat, j: nat)
    requires i <= j <= |d| && forall n :: i <= n < j ==> d[n] <= p
    ensures Excess(d, p, i, j) <= 0
  {
    if i < j {
      ExcessBound(d, p, i, j - 1);
    }
  }

  /** No drift: the schedule stays on its ticks exactly as long as no run of queries overruns in
      total; in particular when none overruns by itself. */
  lemma NoDrift(d: seq<int>, p: int, k: nat)
    requires k <= |d|
    ensures Lag(d, p, k) == 0 <==> forall i :: 0 <= i < k ==> Excess(d, p, i, k) <= 0
    ensures (forall i :: 0 <= i < k ==> d[i] <= p) ==> Lag(d, p, k) == 0
  {
    LagClosedForm(d, p, k);
    if forall i :: 0 <= i < k ==> d[i] <= p {
      forall i | 0 <= i < k
        ensures Excess(d, p, i, k) <= 0
      {
        ExcessBound(d, p, i, k);
      }
    }
  }

  /** Catching up: with queries of at most c from query m on, r queries work off r * (p - c) of the
      lag -- and exactly that much when they take c each, so this many are also needed. */
  lemma {:induction false} CatchUp(d: seq<int>, p: int, c: int, m: nat, r: nat)
    requires m + r <= |d| && c <= p
    requires forall n :: m <= n < m + r ==> d[n] <= c
    ensures Lag(d, p, m + r) <= Max(0, Lag(d, p, m) - r * (p - c))
    ensures (forall n :: m <= n < m + r ==> d[n] == c) ==> Lag(d, p, m + r) == Max(0, Lag(d, p, m) - r * (p - c))
  {
    if r > 0 {
      CatchUp(d, p, c, m, r - 1);
      LagRecurrence(d, p, 0, m + r - 1);
      assert r * (p - c) == (r - 1) * (p - c) + (p - c);
    } else {
      MaxExcessIsMax(d, p, 0, m);
    }
  }

  /** After one overrun of length x beyond the period, queries of at most c < p are back on their
      ticks after every r with r * (p - c) >= x - p. */
  lemma RecoveryFromOneOverrun(d: seq<int>, p: int, c: int, m: nat, r: nat)
    requires m + 1 + r <= |d| && c < p
    requires Lag(d, p, m) == 0 && d[m] > p
    requires forall n :: m < n < m + 1 + r ==> d[n] <= c
    ensures Lag(d, p, m + 1) == d[m] - p
    ensures r * (p - c) >= d[m] - p ==> Lag(d, p, m + 1 + r) == 0
    ensures (forall n :: m < n < m + 1 + r ==> d[n] == c) && r * (p - c) < d[m] - p ==> Lag(d, p, m + 1 + r) > 0
  {
    LagRecurrence(d, p, 0, m);
    CatchUp(d, p, c, m + 1, r);
    LagClosedForm(d, p, m + 1 + r);
  }

  /** No tick is skipped, although the header's documentation allows it: queries run one at a time, a
      late query is followed at once by the next, and tick k + 1 always has its own query k -- a query
      that is on time starts at exactly that tick, however late earlier ones ran. */
  lemma NoTickSkipped(p: int, s0: int, d: seq<int>, starts: seq<int>, k: nat)
    requires IsSchedule(s0, p, d, starts) && k + 1 < |d|
    ensures starts[k + 1] == Max(s0 + (k + 2) * p, starts[k] + d[k])
    ensures starts[k] >= s0 + (k + 1) * p
    ensures Lag(d, p, k) == 0 <==> starts[k] == s0 + (k + 1) * p
  {
    LagRecurrence(d, p, 0, k);
    LagClosedForm(d, p, k);
    assert (k + 2) * p == (k + 1) * p + p;
  }
}

/** The per-connection token bucket, over exact reals. */
module RateLimit {
  datatype Limits = Limits(capacity: nat, ratePerSec: nat)
  datatype Call = Call(cost: nat, now: real)

  function Min(a: real, b: real): real {
    if a <= b then a else b
  }

  /** Seconds by which the clock moved forward; `saturating_duration_since` is never negative. */
  function Since(now: real, last: real): real {
    if now >= last then now - last else 0.0
  }

  /** `dt * rate`. */
  function Gain(l: Limits, now: real, last: real): (g: real)
    ensures g >= 0.0
  {
    assert Since(now, last) >= 0.0;
    Since(now, last) * l.ratePerSec as real
  }

  /** The level after the refill that opens every call. */
  function Refilled(l: Limits, tokens: real, last: real, now: real): real {
    Min(tokens + Gain(l, now, last), l.capacity as real)
  }

  class TokenBucket {
    const limits: Limits
    var tokens: real
    var last: real

    constructor (l: Limits, now: real)
      requires l.ratePerSec > 0
      ensures limits == l && tokens == l.capacity as real && last == now
    {
      limits, tokens, last := l, l.capacity as real, now;
    }

    method TryConsume(cost: nat, now: real) returns (allowed: bool)
      requires 0.0 <= tokens <= limits.capacity as real
      modifies this
      ensures allowed == (cost as real <= Refilled(limits, old(tokens), old(last), now))
      ensures tokens == Refilled(limits, old(tokens), old(last), now) - (if allowed then cost as real else 0.0)
      ensures last == now && 0.0 <= tokens <= limits.capacity as real
    {
      var dt := Since(now, last);
      last := now;
      assert dt * limits.ratePerSec as real == Gain(limits, now, old(last));
      tokens := Min(tokens + dt * limits.ratePerSec as real, limits.capacity as real);
      if tokens >= cost as real {
        tokens := tokens - cost as real;
        return true;
      }
      return false;
    }
  }

  // ---- Whole runs of calls on a fresh bucket ----

  /** The level call `i` finds, after its refill. */
  function Level(l: Limits, calls: seq<Call>, i: nat): real
    requires i < |calls|
    decreases i, 0
  {
    if i == 0 then l.capacity as real
    else Refilled(l, Level(l, calls, i - 1) - Spent(l, calls, i - 1), calls[i - 1].now, calls[i].now)
  }

  predicate Admitted(l: Limits, calls: seq<Call>, i: nat)
    requires i < |calls|
    decreases i, 1
  {
    calls[i].cost as real <= Level(l, calls, i)
  }

  function Spent(l: Limits, calls: seq<Call>, i: nat): real
    requires i < |calls|
    decreases i, 2
  {
    if Admitted(l, calls, i) then calls[i].cost as real else 0.0
  }

  /** A connection's calls, one after the other, on its own bucket. */
  method Serve(l: Limits, created: real, calls: seq<Call>) returns (allowed: seq<bool>)
    requires l.ratePerSec > 0
    ensures |allowed| == |calls| && forall i :: 0 <= i < |calls| ==> allowed[i] == Admitted(l, calls, i)
  {
    var bucket := new TokenBucket(l, created);
    allowed := [];
    for i := 0 to |calls|
      invariant fresh(bucket) && bucket.limits == l && 0.0 <= bucket.tokens <= l.capacity as real
      invariant |allowed| == i && forall k :: 0 <= k < i ==> allowed[k] == Admitted(l, calls, k)
      invariant i == 0 ==> bucket.tokens == l.capacity as real
      invariant i > 0 ==>
        bucket.last == calls[i - 1].now && bucket.tokens == Level(l, calls, i - 1) - Spent(l, calls, i - 1)
    {
      var ok := bucket.TryConsume(calls[i].cost, calls[i].now);
      allowed := allowed + [ok];
    }
  }

  // ---- The declarative bound ----

  /** Refill earned between calls `j` and `i`: the rate times the forward movement of the clock. */
  function Earned(l: Limits, calls: seq<Call>, j: nat, i: nat): (e: real)
    requires j <= i < |calls|
    ensures e >= 0.0
    decreases i
  {
    if i == j then 0.0 else Earned(l, calls, j, i - 1) + Gain(l, calls[i].now, calls[i - 1].now)
  }

  /** Cost admitted by the calls from `j` up to but not including `i`. */
  function AdmittedCost(l: Limits, calls: seq<Call>, j: nat, i: nat): real
    requires j <= i <= |calls|
    decreases i
  {
    if i == j then 0.0 else AdmittedCost(l, calls, j, i - 1) + Spent(l, calls, i - 1)
  }

  /** What a limiter remembering only the window from call `j` would still grant at call `i`. */
  function Allowance(l: Limits, calls: seq<Call>, j: nat, i: nat): real
    requires j <= i < |calls|
  {
    l.capacity as real + Earned(l, calls, j, i) - AdmittedCost(l, calls, j, i)
  }

  lemma AllowanceNext(l: Limits, calls: seq<Call>, j: nat, i: nat)
    requires j < i < |calls|
    ensures Allowance(l, calls, j, i)
         == Allowance(l, calls, j, i - 1) - Spent(l, calls, i - 1) + Gain(l, calls[i].now, calls[i - 1].now)
  {
    hide Gain, Level;
  }

  /** The one number the bucket keeps is the tightest of all window allowances. */
  lemma {:induction false} LevelIsTightest(l: Limits, calls: seq<Call>, i: nat) returns (tightest: nat)
    requires i < |calls|
    ensures tightest <= i && Level(l, calls, i) == Allowance(l, calls, tightest, i)
    ensures forall j :: 0 <= j <= i ==> Level(l, calls, i) <= Allowance(l, calls, j, i)
    ensures 0.0 <= Level(l, calls, i) <= l.capacity as real
    decreases i
  {
    hide Gain;
    if i == 0 {
      tightest := 0;
    } else {
      var before := LevelIsTightest(l, calls, i - 1);
      hide Earned, AdmittedCost;
      tightest := if Level(l, calls, i) == l.capacity as real then i else before;
      AllowanceNext(l, calls, before, i);
      AllowanceSelf(l, calls, i);
      hide Allowance;
      forall j | 0 <= j <= i
        ensures Level(l, calls, i) <= Allowance(l, calls, j, i)
      {
        if j < i {
          AllowanceNext(l, calls, j, i);
        }
      }
    }
  }

  lemma AllowanceSelf(l: Limits, calls: seq<Call>, i: nat)
    requires i < |calls|
    ensures Allowance(l, calls, i, i) == l.capacity as real
  {
  }

  /**
   * A call is admitted exactly when no window of calls ending with it would exceed the capacity
   * plus what the clock earned inside the window.
   */
  lemma AdmittedIff(l: Limits, calls: seq<Call>, i: nat)
    requires i < |calls|
    ensures Admitted(l, calls, i) <==> forall j :: 0 <= j <= i ==>
      AdmittedCost(l, calls, j, i) + calls[i].cost as real <= l.capacity as real + Earned(l, calls, j, i)
  {
    var t := LevelIsTightest(l, calls, i);
    hide Level, Gain;
    if !Admitted(l, calls, i) {
      assert AdmittedCost(l, calls, t, i) + calls[i].cost as real > l.capacity as real + Earned(l, calls, t, i);
    } else {
      forall j | 0 <= j <= i
        ensures AdmittedCost(l, calls, j, i) + calls[i].cost as real <= l.capacity as real + Earned(l, calls, j, i)
      {
        assert Level(l, calls, i) <= Allowance(l, calls, j, i);
      }
    }
  }

  ghost predicate ClockForward(calls: seq<Call>, j: nat, i: nat)
    requires i < |calls|
  {
    forall k :: j < k <= i ==> calls[k - 1].now <= calls[k].now
  }

  lemma {:induction false} EarnedOnForwardClock(l: Limits, calls: seq<Call>, j: nat, i: nat)
    requires j <= i < |calls| && ClockForward(calls, j, i)
    ensures Earned(l, calls, j, i) == (calls[i].now - calls[j].now) * l.ratePerSec as real
    decreases i
  {
    if i > j {
      EarnedOnForwardClock(l, calls, j, i - 1);
      var a, b, r := calls[i - 1].now - calls[j].now, calls[i].now - calls[i - 1].now, l.ratePerSec as real;
      assert (a + b) * r == a * r + b * r;
    }
  }

  /** The promise of the limiter: capacity plus rate times window length, over any window of calls. */
  lemma WindowBound(l: Limits, calls: seq<Call>, j: nat, i: nat)
    requires j <= i < |calls| && ClockForward(calls, j, i)
    ensures AdmittedCost(l, calls, j, i + 1)
         <= l.capacity as real + (calls[i].now - calls[j].now) * l.ratePerSec as real
  {
    var t := LevelIsTightest(l, calls, i);
    EarnedOnForwardClock(l, calls, j, i);
    assert Level(l, calls, i) <= Allowance(l, calls, j, i);
    assert AdmittedCost(l, calls, j, i + 1) == AdmittedCost(l, calls, j, i) + Spent(l, calls, i);
  }

  /** A clock that steps back and forth earns the same second twice, and the promise breaks. */
  lemma BackwardClockBreaksBound() returns (l: Limits, calls: seq<Call>)
    ensures |calls| == 3
    ensures AdmittedCost(l, calls, 0, 3) > l.capacity as real + (calls[2].now - calls[0].now) * l.ratePerSec as real
  {
    l, calls := Limits(1, 1), [Call(1, 1.0), Call(0, 0.0), Call(1, 1.0)];
    assert Level(l, calls, 0) == 1.0 && Spent(l, calls, 0) == 1.0;
    assert Level(l, calls, 1) == 0.0 && Spent(l, calls, 1) == 0.0;
    assert Level(l, calls, 2) == 1.0 && Spent(l, calls, 2) == 1.0;
    assert AdmittedCost(l, calls, 0, 1) == 1.0;
    assert AdmittedCost(l, calls, 0, 2) == 1.0;
  }

  // ---- Exactly which clocks keep the promise ----

  /** Calls with the given costs at the given clock readings. */
  function CallsAt(times: seq<real>, costs: seq<nat>): (calls: seq<Call>)
    requires |costs| == |times|
    ensures |calls| == |times| && forall i :: 0 <= i < |times| ==> calls[i] == Call(costs[i], times[i])
  {
    seq(|times|, i requires 0 <= i < |times| => Call(costs[i], times[i]))
  }

  ghost predicate NeverStepsBack(times: seq<real>) {
    forall k :: 0 < k < |times| ==> times[k - 1] <= times[k]
  }

  /** Capacity plus rate times length bounds what the window from call `j` to call `i` admits. */
  ghost predicate WindowKept(l: Limits, calls: seq<Call>, j: nat, i: nat)
    requires j <= i < |calls|
  {
    AdmittedCost(l, calls, j, i + 1) <= l.capacity as real + (calls[i].now - calls[j].now) * l.ratePerSec as real
  }

  /** Every window is within the bound, whatever the calls cost. */
  ghost predicate PromiseKept(l: Limits, times: seq<real>) {
    forall costs: seq<nat>, j: nat, i: nat :: |costs| == |times| && j <= i < |times| ==>
      WindowKept(l, CallsAt(times, costs), j, i)
  }

  /** Nothing at all, except a full bucket's worth at call `k`. */
  function OneBurst(n: nat, k: nat, cost: nat): (costs: seq<nat>)
    ensures |costs| == n && forall i :: 0 <= i < n ==> costs[i] == if i == k then cost else 0
  {
    seq(n, i => if i == k then cost else 0)
  }

  /** As long as nothing has been asked for, the bucket is full. */
  lemma {:induction false} FullUntil(l: Limits, calls: seq<Call>, i: nat)
    requires i < |calls| && forall m :: 0 <= m < i ==> calls[m].cost == 0
    ensures Level(l, calls, i) == l.capacity as real
    decreases i
  {
    if i > 0 {
      FullUntil(l, calls, i - 1);
    }
  }

  lemma SpentIsCost(l: Limits, calls: seq<Call>, i: nat)
    requires i < |calls| && (calls[i].cost as real <= Level(l, calls, i) || calls[i].cost == 0)
    ensures Spent(l, calls, i) == calls[i].cost as real
  {
  }

  /** A burst right before the clock steps back is more than the shortened window may admit. */
  lemma StepBackBreaksBound(l: Limits, calls: seq<Call>, k: nat)
    requires l.ratePerSec > 0 && k + 1 < |calls| && calls[k + 1].now < calls[k].now
    requires forall m :: 0 <= m < |calls| ==> calls[m].cost == if m == k then l.capacity else 0
    ensures !WindowKept(l, calls, k, k + 1)
  {
    hide Level, Spent;
    FullUntil(l, calls, k);
    SpentIsCost(l, calls, k);
    SpentIsCost(l, calls, k + 1);
    assert AdmittedCost(l, calls, k, k + 1) == l.capacity as real;
    assert AdmittedCost(l, calls, k, k + 2) == l.capacity as real;
    NegativeProduct(calls[k + 1].now - calls[k].now, l.ratePerSec as real);
  }

  lemma NegativeProduct(x: real, y: real)
    requires x < 0.0 < y
    ensures x * y < 0.0
  {
  }

  lemma ForwardKeepsPromise(l: Limits, times: seq<real>, costs: seq<nat>, j: nat, i: nat)
    requires NeverStepsBack(times) && |costs| == |times| && j <= i < |times|
    ensures WindowKept(l, CallsAt(times, costs), j, i)
  {
    hide AdmittedCost, Level;
    WindowBound(l, CallsAt(times, costs), j, i);
  }

  /**
   * The promise holds for every cost and every window if and only if no clock reading is below the
   * one before it.
   */
  lemma PromiseIffNeverStepsBack(l: Limits, times: seq<real>)
    requires l.ratePerSec > 0
    ensures PromiseKept(l, times) <==> NeverStepsBack(times)
  {
    hide WindowKept;
    if NeverStepsBack(times) {
      forall costs: seq<nat>, j: nat, i: nat | |costs| == |times| && j <= i < |times|
        ensures WindowKept(l, CallsAt(times, costs), j, i)
      {
        ForwardKeepsPromise(l, times, costs, j, i);
      }
    } else {
      var k :| 0 < k < |times| && times[k] < times[k - 1];
      var costs := OneBurst(|times|, k - 1, l.capacity);
      StepBackBreaksBound(l, CallsAt(times, costs), k - 1);
      assert !WindowKept(l, CallsAt(times, costs), k - 1, k);
    }
  }
}

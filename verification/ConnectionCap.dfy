/**
 * The connection counter under concurrency: any number of threads interleave the atomic actions of
 * `acquire` (load, compare-exchange that may fail spuriously) with the drops of live guards.
 */
module ConnectionCap {
  import opened Octets
  import opened Results

  type ThreadId = nat
  type Guard = nat

  /** A thread inside `acquire`: the value it last read, and the moment its call began. */
  datatype Local = Local(cur: nat, began: nat)

  /** An `acquire` that returned `None`, by the moments at which it began and ended. */
  datatype Refusal = Refusal(began: nat, ended: nat)

  datatype State = State(
    cur: nat,
    guards: set<Guard>,
    threads: map<ThreadId, Local>,
    refusals: seq<Refusal>,
    history: seq<nat>)                 // the counter after each step so far

  datatype Step =
    | Load(t: ThreadId)
    | GiveUp(t: ThreadId)
    | Exchange(t: ThreadId, guard: Guard)
    | ExchangeFails(t: ThreadId)
    | DropGuard(guard: Guard)

  const INIT: State := State(0, {}, map[], [], [0])

  /** The most recent moment. */
  function Now(s: State): int {
    |s.history| - 1
  }

  ghost predicate Enabled(cap: nat, s: State, step: Step) {
    match step
    case Load(t) => t !in s.threads
    case GiveUp(t) => t in s.threads && s.threads[t].cur >= cap
    case Exchange(t, guard) =>
      t in s.threads && s.threads[t].cur < cap && s.cur == s.threads[t].cur && guard !in s.guards
    case ExchangeFails(t) => t in s.threads && s.threads[t].cur < cap
    case DropGuard(guard) => guard in s.guards
  }

  /** `u32` addition and subtraction, wrapping as `fetch_sub` does. */
  function Add1(x: nat): nat { (x + 1) % 0x1_0000_0000 }
  function Sub1(x: nat): nat { (x + U32_MAX) % 0x1_0000_0000 }

  ghost function Act(cap: nat, s: State, step: Step): State
    requires Enabled(cap, s, step) && |s.history| > 0
  {
    match step
    case Load(t) => s.(threads := s.threads[t := Local(s.cur, Now(s))])
    case GiveUp(t) => s.(threads := s.threads - {t}, refusals := s.refusals + [Refusal(s.threads[t].began, Now(s))])
    case Exchange(t, guard) => s.(cur := Add1(s.cur), guards := s.guards + {guard}, threads := s.threads - {t})
    case ExchangeFails(t) => s.(threads := s.threads[t := s.threads[t].(cur := s.cur)])
    case DropGuard(guard) => s.(cur := Sub1(s.cur), guards := s.guards - {guard})
  }

  /** One step, with the counter's new value put on record. */
  ghost function Apply(cap: nat, s: State, step: Step): State
    requires Enabled(cap, s, step) && |s.history| > 0
  {
    var t := Act(cap, s, step);
    t.(history := t.history + [t.cur])
  }

  ghost function Run(cap: nat, steps: seq<Step>): (r: Option<State>)
    ensures r.Some? ==> |r.value.history| == |steps| + 1
  {
    if steps == [] then Some(INIT)
    else
      match Run(cap, steps[..|steps| - 1])
      case None => None
      case Some(s) =>
        var last := steps[|steps| - 1];
        if Enabled(cap, s, last) then Some(Apply(cap, s, last)) else None
  }

  /** The counter had this value at some moment between the two. */
  ghost predicate Seen(history: seq<nat>, value: nat, from: int, to: int) {
    exists k :: 0 <= k < |history| && from <= k <= to && history[k] == value
  }

  ghost predicate Inv(cap: nat, s: State) {
    && s.cur == |s.guards| <= cap
    && |s.history| > 0 && s.history[Now(s)] == s.cur
    && (forall k :: 0 <= k < |s.history| ==> s.history[k] <= cap)
    && (forall t :: t in s.threads ==> Seen(s.history, s.threads[t].cur, s.threads[t].began, Now(s)))
    && (forall i :: 0 <= i < |s.refusals| ==> Seen(s.history, cap, s.refusals[i].began, s.refusals[i].ended))
  }

  lemma SeenLater(history: seq<nat>, value: nat, from: int, to: int, x: nat, to': int)
    requires Seen(history, value, from, to) && to <= to'
    ensures Seen(history + [x], value, from, to')
  {
    var k :| 0 <= k < |history| && from <= k <= to && history[k] == value;
    assert (history + [x])[k] == value;
  }

  /** No step overflows the counter, under-runs it, or takes it past the cap. */
  lemma CounterStep(cap: nat, s: State, step: Step)
    requires Inv(cap, s) && cap <= U32_MAX && Enabled(cap, s, step)
    ensures var t := Act(cap, s, step); t.cur == |t.guards| <= cap
  {
    match step
    case DropGuard(guard) =>
      assert |s.guards - {guard}| == |s.guards| - 1;
      assert Sub1(s.cur) == s.cur - 1;
    case Exchange(t, guard) =>
      assert Add1(s.cur) == s.cur + 1;
    case _ =>
  }

  lemma InvStep(cap: nat, s: State, step: Step)
    requires Inv(cap, s) && cap <= U32_MAX && Enabled(cap, s, step)
    ensures Inv(cap, Apply(cap, s, step))
  {
    hide Add1, Sub1;
    CounterStep(cap, s, step);
    var t := Apply(cap, s, step);
    forall p | p in t.threads
      ensures Seen(t.history, t.threads[p].cur, t.threads[p].began, Now(t))
    {
      if p in s.threads && t.threads[p] == s.threads[p] {
        SeenLater(s.history, s.threads[p].cur, s.threads[p].began, Now(s), t.cur, Now(t));
      } else {
        assert t.history[Now(s)] == s.cur;
        if p in s.threads {
          assert Seen(s.history, s.threads[p].cur, s.threads[p].began, Now(s));
        }
      }
    }
    forall i | 0 <= i < |t.refusals|
      ensures Seen(t.history, cap, t.refusals[i].began, t.refusals[i].ended)
    {
      if i < |s.refusals| {
        SeenLater(s.history, cap, s.refusals[i].began, s.refusals[i].ended, t.cur, s.refusals[i].ended);
      } else {
        var p := step.t;
        var k :| 0 <= k < |s.history| && s.threads[p].began <= k <= Now(s) && s.history[k] == s.threads[p].cur;
        assert t.history[k] == cap;
      }
    }
  }

  lemma {:induction false} RunInv(cap: nat, steps: seq<Step>)
    requires cap <= U32_MAX && Run(cap, steps).Some?
    ensures Inv(cap, Run(cap, steps).value)
  {
    if steps != [] {
      RunInv(cap, steps[..|steps| - 1]);
      InvStep(cap, Run(cap, steps[..|steps| - 1]).value, steps[|steps| - 1]);
    }
  }

  /** In every interleaving the counter is the number of live guards and never exceeds the cap. */
  lemma CounterCountsGuards(cap: nat, steps: seq<Step>)
    requires cap <= U32_MAX && Run(cap, steps).Some?
    ensures Run(cap, steps).value.cur == |Run(cap, steps).value.guards| <= cap
  {
    RunInv(cap, steps);
  }

  /** The record is the truth: its `k`-th value is the counter after the first `k` steps. */
  lemma {:induction false} HistoryAt(cap: nat, steps: seq<Step>, k: nat)
    requires Run(cap, steps).Some? && k <= |steps|
    ensures Run(cap, steps[..k]).Some? && Run(cap, steps).value.history[k] == Run(cap, steps[..k]).value.cur
    decreases |steps|
  {
    if steps == [] {
      assert steps[..k] == [];
    } else if k == |steps| {
      assert steps[..k] == steps;
    } else {
      HistoryAt(cap, steps[..|steps| - 1], k);
      assert steps[..|steps| - 1][..k] == steps[..k];
    }
  }

  /** A refused `acquire` overlapped a moment at which every slot was taken. */
  lemma RefusedOnlyWhenFull(cap: nat, steps: seq<Step>, i: nat) returns (k: nat)
    requires cap <= U32_MAX && Run(cap, steps).Some? && i < |Run(cap, steps).value.refusals|
    ensures k <= |steps| && Run(cap, steps[..k]).Some? && Run(cap, steps[..k]).value.cur == cap
    ensures var call := Run(cap, steps).value.refusals[i]; call.began <= k <= call.ended
  {
    var s := Run(cap, steps).value;
    RunInv(cap, steps);
    assert Seen(s.history, cap, s.refusals[i].began, s.refusals[i].ended);
    var m :| 0 <= m < |s.history| && s.refusals[i].began <= m <= s.refusals[i].ended && s.history[m] == cap;
    k := m;
    HistoryAt(cap, steps, k);
  }

  /** One more step of a run. */
  lemma RunOne(cap: nat, steps: seq<Step>, step: Step)
    requires Run(cap, steps).Some? && Enabled(cap, Run(cap, steps).value, step)
    ensures Run(cap, steps + [step]) == Some(Apply(cap, Run(cap, steps).value, step))
  {
    hide Enabled, Apply;
    assert (steps + [step])[..|steps|] == steps;
  }

  /** An `acquire` that nobody disturbs takes a slot when one is free, whatever came before and however often its
      exchange fails for no reason; otherwise it is refused and leaves the counter alone. */
  lemma AcquireUndisturbed(cap: nat, steps: seq<Step>, t: ThreadId, guard: Guard, retries: nat)
    returns (more: seq<Step>)
    requires cap <= U32_MAX && Run(cap, steps).Some?
    requires t !in Run(cap, steps).value.threads && guard !in Run(cap, steps).value.guards
    ensures Run(cap, steps + more).Some?
    ensures var s, s' := Run(cap, steps).value, Run(cap, steps + more).value;
      && s'.threads == s.threads
      && if |s.guards| < cap then
           && more == [Load(t)] + Repeated(ExchangeFails(t), retries) + [Exchange(t, guard)]
           && s'.guards == s.guards + {guard} && s'.cur == s.cur + 1 && s'.refusals == s.refusals
         else
           && more == [Load(t), GiveUp(t)]
           && s'.guards == s.guards && s'.cur == s.cur && |s'.refusals| == |s.refusals| + 1
  {
    hide Run;
    var s := Run(cap, steps).value;
    RunInv(cap, steps);
    RunOne(cap, steps, Load(t));
    var loaded := steps + [Load(t)];
    if |s.guards| < cap {
      FailsAgain(cap, loaded, t, retries);
      var tried := loaded + Repeated(ExchangeFails(t), retries);
      RunOne(cap, tried, Exchange(t, guard));
      more := [Load(t)] + Repeated(ExchangeFails(t), retries) + [Exchange(t, guard)];
      assert steps + more == tried + [Exchange(t, guard)];
    } else {
      RunOne(cap, loaded, GiveUp(t));
      more := [Load(t), GiveUp(t)];
      assert steps + more == loaded + [GiveUp(t)];
    }
    assert s.threads[t := Local(s.cur, Now(s))] - {t} == s.threads;
  }

  function Repeated(step: Step, n: nat): seq<Step> {
    if n == 0 then [] else Repeated(step, n - 1) + [step]
  }

  lemma FailOnce(cap: nat, s: State, t: ThreadId)
    requires t in s.threads && s.threads[t].cur == s.cur < cap && |s.history| > 0
    ensures Enabled(cap, s, ExchangeFails(t)) && Apply(cap, s, ExchangeFails(t)).(history := s.history) == s
  {
    assert s.threads[t := s.threads[t].(cur := s.cur)] == s.threads;
  }

  /** Spurious failures change nothing while the counter stands still. */
  lemma {:induction false} FailsAgain(cap: nat, steps: seq<Step>, t: ThreadId, n: nat)
    requires Run(cap, steps).Some? && t in Run(cap, steps).value.threads
    requires Run(cap, steps).value.threads[t].cur == Run(cap, steps).value.cur < cap
    ensures Run(cap, steps + Repeated(ExchangeFails(t), n)).Some?
    ensures var s, s' := Run(cap, steps).value, Run(cap, steps + Repeated(ExchangeFails(t), n)).value;
      s'.(history := s.history) == s
  {
    if n == 0 {
      assert steps + [] == steps;
    } else {
      hide Run, Enabled, Apply;
      FailsAgain(cap, steps, t, n - 1);
      var before := steps + Repeated(ExchangeFails(t), n - 1);
      FailOnce(cap, Run(cap, before).value, t);
      RunOne(cap, before, ExchangeFails(t));
      assert steps + Repeated(ExchangeFails(t), n) == before + [ExchangeFails(t)];
    }
  }
}

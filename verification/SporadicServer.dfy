/**
  The sporadic server: a thread runs at its high priority on a budget of ticks, drops to
  its low priority when the budget is spent, and is replenished periodically.
 */
module SporadicServer {
  import opened Basics
  import opened Timespec

  const BUDGET_AT_LOW: Unsigned32 := 0xFFFF_FFFF

  datatype Policy = Other | Fifo | RoundRobin | Sporadic | Unknown

  datatype Algorithm = NoBudget | ResetTimeslice | ExhaustTimeslice | Callout

  datatype Status = Ok | Einval | Esrch

  /** `struct sched_param`; POSIX priorities, larger is more urgent. */
  datatype Param = Param(priority: int, lowPriority: int, replenishPeriod: Time, initialBudget: Time)

  /** Ticks until the sporadic timer fires, if it is on the chain. */
  datatype Timer = Stopped | Running(ticks: int)

  /** The scheduling part of a thread; `realPriority` and `currentPriority` are core priorities, smaller is more urgent. */
  datatype Thread = Thread(
    policy: Policy,
    param: Param,
    highPriority: int,
    algorithm: Algorithm,
    budget: Unsigned32,
    realPriority: int,
    currentPriority: int,
    resources: nat,
    preemptible: bool,
    ready: bool,
    timer: Timer)

  predicate ValidPriority(p: int) { 1 <= p <= 254 }

  function ToCore(p: int): int { 255 - p }

  function High(t: Thread): int { ToCore(t.highPriority) }

  function Low(t: Thread): int { ToCore(t.param.lowPriority) }

  function BudgetTicks(p: Param, tick: TickLength): Unsigned32 { ToInterval(p.initialBudget, tick) }

  function PeriodTicks(p: Param, tick: TickLength): Unsigned32 { ToInterval(p.replenishPeriod, tick) }

  /** A thread that holds resources is only ever raised. */
  function Reprioritized(t: Thread, priority: int): Thread {
    t.(realPriority := priority,
       currentPriority := if t.resources == 0 || t.currentPriority > priority then priority else t.currentPriority)
  }

  /** `_POSIX_Threads_Sporadic_budget_TSR` */
  function Replenished(t: Thread, tick: TickLength): Thread {
    Reprioritized(t, High(t)).(budget := BudgetTicks(t.param, tick), timer := Running(PeriodTicks(t.param, tick)))
  }

  /** `_POSIX_Threads_Sporadic_budget_callout` */
  function Exhausted(t: Thread): Thread {
    Reprioritized(t, Low(t)).(budget := BUDGET_AT_LOW)
  }

  /** `_Thread_Tickle_timeslice` for the executing thread. */
  function Charged(t: Thread, timeslice: Unsigned32): Thread {
    if !t.preemptible || !t.ready || t.algorithm == NoBudget then t
    else
      var left := Unsigned(t.budget - 1);
      if left != 0 then t.(budget := left)
      else if t.algorithm == Callout then Exhausted(t.(budget := left))
      else t.(budget := timeslice)
  }

  /** The sporadic timer's part of `_Watchdog_Tickle_ticks`. */
  function TimerTicked(t: Thread, tick: TickLength): Thread {
    match t.timer
    case Stopped => t
    case Running(n) => if n == 1 then Replenished(t.(timer := Stopped), tick) else t.(timer := Running(n - 1))
  }

  /** `rtems_clock_tick`: the timers first, then the executing thread is charged. */
  function Ticked(t: Thread, executing: bool, tick: TickLength, timeslice: Unsigned32): Thread {
    var t' := TimerTicked(t, tick);
    if executing then Charged(t', timeslice) else t'
  }

  function AlgorithmOf(policy: Policy): Algorithm {
    match policy
    case Other => ResetTimeslice
    case Fifo => NoBudget
    case RoundRobin => ExhaustTimeslice
    case Sporadic => Callout
    case Unknown => NoBudget
  }

  predicate Acceptable(policy: Policy, param: Param, tick: TickLength) {
    && ValidPriority(param.priority)
    && !policy.Unknown?
    && (policy.Sporadic? ==>
          PeriodTicks(param, tick) >= BudgetTicks(param, tick) && ValidPriority(param.lowPriority))
  }

  /** The effect of a `pthread_setschedparam` whose parameters are acceptable. */
  function Scheduled(t: Thread, policy: Policy, param: Param, tick: TickLength, timeslice: Unsigned32): Thread {
    var t1 := t.(timer := if t.policy.Sporadic? then Stopped else t.timer,
                 policy := policy, param := param, algorithm := AlgorithmOf(policy));
    if policy.Sporadic? then Replenished(t1.(highPriority := param.priority), tick)
    else t1.(budget := timeslice, realPriority := ToCore(param.priority), currentPriority := ToCore(param.priority))
  }

  // ------------------------------------------------------------ the routines themselves

  class Scheduler {
    const tick: TickLength
    const timeslice: Unsigned32
    var policy: Policy
    var param: Param
    var highPriority: int
    var algorithm: Algorithm
    var budget: Unsigned32
    var realPriority: int
    var currentPriority: int
    var resources: nat
    var preemptible: bool
    var ready: bool
    var timer: Timer

    function View(): Thread
      reads this
    {
      Thread(policy, param, highPriority, algorithm, budget, realPriority, currentPriority, resources, preemptible, ready, timer)
    }

    constructor (t: Thread, tick: TickLength, timeslice: Unsigned32)
      ensures View() == t && this.tick == tick && this.timeslice == timeslice
    {
      this.tick, this.timeslice := tick, timeslice;
      policy, param, highPriority, algorithm := t.policy, t.param, t.highPriority, t.algorithm;
      budget, realPriority, currentPriority, resources := t.budget, t.realPriority, t.currentPriority, t.resources;
      preemptible, ready, timer := t.preemptible, t.ready, t.timer;
    }

    method SporadicBudgetTSR()
      modifies this
      ensures View() == Replenished(old(View()), tick)
    {
      var ticks: int := ToInterval(param.initialBudget, tick);
      if ticks == 0 {
        ticks := 1;
      }
      budget := ticks;
      var newPriority := ToCore(highPriority);
      realPriority := newPriority;
      if resources == 0 || currentPriority > newPriority {
        currentPriority := newPriority;
      }
      ticks := ToInterval(param.replenishPeriod, tick);
      if ticks == 0 {
        ticks := 1;
      }
      timer := Running(ticks);
    }

    method SporadicBudgetCallout()
      modifies this
      ensures View() == Exhausted(old(View()))
    {
      budget := BUDGET_AT_LOW;
      var newPriority := ToCore(param.lowPriority);
      realPriority := newPriority;
      if resources == 0 || currentPriority > newPriority {
        currentPriority := newPriority;
      }
    }

    method TickleTimeslice()
      modifies this
      ensures View() == Charged(old(View()), timeslice)
    {
      if !preemptible || !ready {
        return;
      }
      match algorithm {
        case NoBudget =>
        case ResetTimeslice | ExhaustTimeslice =>
          budget := Unsigned(budget - 1);
          if budget == 0 {
            budget := timeslice;
          }
        case Callout =>
          budget := Unsigned(budget - 1);
          if budget == 0 {
            SporadicBudgetCallout();
          }
      }
    }

    method ClockTick(executing: bool)
      modifies this
      ensures View() == Ticked(old(View()), executing, tick, timeslice)
    {
      match timer {
        case Stopped =>
        case Running(n) =>
          if n == 1 {
            timer := Stopped;
            SporadicBudgetTSR();
          } else {
            timer := Running(n - 1);
          }
      }
      if executing {
        TickleTimeslice();
      }
    }

    /** `pthread_setschedparam`; `found` tells whether the id names a local thread. */
    method SetSchedParam(found: bool, newPolicy: Policy, newParam: Param) returns (status: Status)
      modifies this
      ensures status == if !Acceptable(newPolicy, newParam, tick) then Einval else if !found then Esrch else Ok
      ensures View() == if status.Ok? then Scheduled(old(View()), newPolicy, newParam, tick, timeslice) else old(View())
    {
      if !ValidPriority(newParam.priority) {
        return Einval;
      }
      var budgetAlgorithm := NoBudget;
      match newPolicy {
        case Other => budgetAlgorithm := ResetTimeslice;
        case Fifo => budgetAlgorithm := NoBudget;
        case RoundRobin => budgetAlgorithm := ExhaustTimeslice;
        case Sporadic =>
          budgetAlgorithm := Callout;
          if ToInterval(newParam.replenishPeriod, tick) < ToInterval(newParam.initialBudget, tick) {
            return Einval;
          }
          if !ValidPriority(newParam.lowPriority) {
            return Einval;
          }
        case Unknown => return Einval;
      }
      if !found {
        return Esrch;
      }
      if policy == Sporadic {
        timer := Stopped;
      }
      policy := newPolicy;
      param := newParam;
      algorithm := budgetAlgorithm;
      if newPolicy.Sporadic? {
        highPriority := param.priority;
        SporadicBudgetTSR();
      } else {
        budget := timeslice;
        realPriority := ToCore(param.priority);
        currentPriority := realPriority;
      }
      status := Ok;
    }
  }

  // ------------------------------------------------------------------------- runs

  /** What happens to a server thread; the last two only while it holds a resource. */
  datatype Step =
    | Tick(executing: bool)
    | SetMode(preemptible: bool)
    | SetReady(ready: bool)
    | Obtain
    | Inherit(priority: int)
    | Release(restores: bool)

  /**
    A server with its accounts since `pthread_setschedparam`: the clock, the
    replenishments, the ticks it was charged since the last one, that of the replenishment
    included, and the ticks it executed at high priority, split into those charged to its
    budget (all, those since the last replenishment, and those between the last two), those
    not charged, and those executed with its real priority low, either adrift without a
    resource or overdrawn with one.
   */
  datatype Server = Server(thread: Thread, time: nat, replenishments: nat, spent: nat, highTicks: nat,
                           periodTicks: nat, lastPeriod: nat, uncharged: nat, adrift: nat, overdrawn: nat)

  predicate Enabled(s: Server, step: Step) {
    step.Inherit? || step.Release? ==> s.thread.resources > 0
  }

  /** The thread executed this tick at its high priority. */
  predicate AtHigh(t: Thread, executing: bool) {
    executing && t.currentPriority == High(t)
  }

  /** A thread without resources runs at its high priority although its real one is low. */
  predicate Adrift(t: Thread) {
    t.resources == 0 && t.currentPriority == High(t) && t.realPriority != High(t)
  }

  /** A thread that holds a resource does. */
  predicate Overdrawn(t: Thread) {
    t.resources > 0 && t.currentPriority == High(t) && t.realPriority != High(t)
  }

  function Count(b: bool): nat { if b then 1 else 0 }

  function TickServer(s: Server, executing: bool, tick: TickLength, timeslice: Unsigned32): Server {
    var t := s.thread;
    var onBudget := AtHigh(t, executing) && t.realPriority == High(t);
    var counts := onBudget && t.preemptible && t.ready;
    var fires := t.timer == Running(1);
    Server(
      Ticked(t, executing, tick, timeslice),
      s.time + 1,
      s.replenishments + Count(fires),
      (if fires then 0 else s.spent) + Count(executing && t.preemptible && t.ready),
      s.highTicks + Count(counts),
      if fires then 0 else s.periodTicks + Count(counts),
      if fires then s.periodTicks + Count(counts) else s.lastPeriod,
      s.uncharged + Count(onBudget && !counts),
      s.adrift + Count(executing && Adrift(t)),
      s.overdrawn + Count(executing && Overdrawn(t)))
  }

  /** A mutex with inheritance or a ceiling gives the real priority back with the last resource; another does not. */
  function Next(s: Server, step: Step, tick: TickLength, timeslice: Unsigned32): Server
    requires Enabled(s, step)
  {
    var t := s.thread;
    match step
    case Tick(executing) => TickServer(s, executing, tick, timeslice)
    case SetMode(preemptible) => s.(thread := t.(preemptible := preemptible))
    case SetReady(ready) => s.(thread := t.(ready := ready))
    case Obtain => s.(thread := t.(resources := t.resources + 1))
    case Inherit(priority) =>
      s.(thread := t.(currentPriority := if priority < t.currentPriority then priority else t.currentPriority))
    case Release(restores) =>
      s.(thread := t.(resources := t.resources - 1,
                      currentPriority := if restores && t.resources == 1 then t.realPriority else t.currentPriority))
  }

  /** The steps are enabled in turn. */
  predicate CanRun(s: Server, steps: seq<Step>, tick: TickLength, timeslice: Unsigned32)
    decreases |steps|
  {
    steps == []
    || (Enabled(s, steps[0]) && CanRun(Next(s, steps[0], tick, timeslice), steps[1..], tick, timeslice))
  }

  function Run(s: Server, steps: seq<Step>, tick: TickLength, timeslice: Unsigned32): Server
    requires CanRun(s, steps, tick, timeslice)
    decreases |steps|
  {
    if steps == [] then s else Run(Next(s, steps[0], tick, timeslice), steps[1..], tick, timeslice)
  }

  function Start(t: Thread): Server { Server(t, 0, 0, 0, 0, 0, 0, 0, 0, 0) }

  // -------------------------------------------------------------------- invariant

  /** Scheduling parameters that `pthread_setschedparam` accepts, with two different priorities. */
  predicate Serves(t: Thread, param: Param, tick: TickLength) {
    && t.policy.Sporadic? && t.param == param && t.algorithm == Callout && t.highPriority == param.priority
    && param.priority != param.lowPriority
    && PeriodTicks(param, tick) >= BudgetTicks(param, tick)
  }

  /** What the budget promises about the ticks since the last replenishment. */
  predicate BudgetOk(t: Thread, periodTicks: nat, initial: nat) {
    && (t.realPriority == High(t) || t.realPriority == Low(t))
    && t.budget >= 1
    && periodTicks <= initial
    && (t.realPriority == High(t) ==> periodTicks + t.budget <= initial)
  }

  predicate ClockOk(s: Server, period: nat)
    requires period > 0
  {
    s.thread.timer == Running(period - s.time % period) && s.replenishments == s.time / period
  }

  predicate Inv(s: Server, param: Param, tick: TickLength) {
    && Serves(s.thread, param, tick)
    && BudgetOk(s.thread, s.periodTicks, BudgetTicks(param, tick))
    && ClockOk(s, PeriodTicks(param, tick))
    && s.lastPeriod <= BudgetTicks(param, tick)
    && s.highTicks - s.periodTicks <= s.replenishments * BudgetTicks(param, tick)
  }

  lemma StartInv(t: Thread, param: Param, tick: TickLength, timeslice: Unsigned32)
    requires Acceptable(Sporadic, param, tick) && param.priority != param.lowPriority
    ensures Inv(Start(Scheduled(t, Sporadic, param, tick, timeslice)), param, tick)
  {
    hide ToInterval;
  }

  /** The clock after one more tick of the timer. */
  lemma ClockAdvances(time: nat, period: nat)
    requires period > 0
    ensures time % period == period - 1 ==> (time + 1) % period == 0 && (time + 1) / period == time / period + 1
    ensures time % period < period - 1 ==> (time + 1) % period == time % period + 1 && (time + 1) / period == time / period
  {
    var q, r := time / period, time % period;
    if r == period - 1 {
      assert time + 1 == (q + 1) * period + 0;
      QuotientUnique(time + 1, period, q + 1, 0);
    } else {
      QuotientUnique(time + 1, period, q, r + 1);
    }
  }

  lemma ChargeKeeps(t: Thread, periodTicks: nat, initial: nat, timeslice: Unsigned32)
    requires t.algorithm == Callout && BudgetOk(t, periodTicks, initial) && High(t) != Low(t)
    ensures var counts := t.realPriority == High(t) && t.preemptible && t.ready;
            && BudgetOk(Charged(t, timeslice), periodTicks + Count(counts), initial)
            && BudgetOk(Charged(t, timeslice), periodTicks, initial)
  {
  }

  lemma TickKeeps(s: Server, executing: bool, param: Param, tick: TickLength, timeslice: Unsigned32)
    requires Inv(s, param, tick)
    ensures Inv(TickServer(s, executing, tick, timeslice), param, tick)
  {
    hide ToInterval;
    var t := s.thread;
    var initial, period := BudgetTicks(param, tick), PeriodTicks(param, tick);
    ClockAdvances(s.time, period);
    var t' := TimerTicked(t, tick);
    if t.timer == Running(1) {
      assert s.replenishments * initial + initial == (s.replenishments + 1) * initial;
      ChargeKeeps(t', 0, initial, timeslice);
    } else {
      ChargeKeeps(t', s.periodTicks, initial, timeslice);
    }
  }

  lemma NextKeeps(s: Server, step: Step, param: Param, tick: TickLength, timeslice: Unsigned32)
    requires Inv(s, param, tick) && Enabled(s, step)
    ensures Inv(Next(s, step, tick, timeslice), param, tick)
  {
    hide ToInterval;
    match step {
      case Tick(executing) => TickKeeps(s, executing, param, tick, timeslice);
      case _ =>
    }
  }

  lemma {:induction false} RunKeeps(s: Server, steps: seq<Step>, param: Param, tick: TickLength, timeslice: Unsigned32)
    requires Inv(s, param, tick) && CanRun(s, steps, tick, timeslice)
    ensures Inv(Run(s, steps, tick, timeslice), param, tick)
    decreases |steps|
  {
    if steps != [] {
      NextKeeps(s, steps[0], param, tick, timeslice);
      RunKeeps(Next(s, steps[0], tick, timeslice), steps[1..], param, tick, timeslice);
    }
  }

  // --------------------------------------------------------------------- theorems

  function TickCount(steps: seq<Step>): nat {
    if steps == [] then 0 else Count(steps[0].Tick?) + TickCount(steps[1..])
  }

  /** The ticks of a run that the thread executed at its high priority. */
  function ExecutedAtHigh(s: Server, steps: seq<Step>, tick: TickLength, timeslice: Unsigned32): nat
    requires CanRun(s, steps, tick, timeslice)
    decreases |steps|
  {
    if steps == [] then 0
    else
      Count(steps[0].Tick? && AtHigh(s.thread, steps[0].executing))
      + ExecutedAtHigh(Next(s, steps[0], tick, timeslice), steps[1..], tick, timeslice)
  }

  /** Whenever the thread executes a tick, it is preemptible and ready. */
  predicate AlwaysCharged(s: Server, steps: seq<Step>, tick: TickLength, timeslice: Unsigned32)
    requires CanRun(s, steps, tick, timeslice)
    decreases |steps|
  {
    steps == []
    || (&& (steps[0] == Tick(true) ==> s.thread.preemptible && s.thread.ready)
        && AlwaysCharged(Next(s, steps[0], tick, timeslice), steps[1..], tick, timeslice))
  }

  lemma {:induction false} RunAccounts(s: Server, steps: seq<Step>, tick: TickLength, timeslice: Unsigned32)
    requires CanRun(s, steps, tick, timeslice)
    ensures var s' := Run(s, steps, tick, timeslice);
            && s'.time == s.time + TickCount(steps)
            && s'.highTicks + s'.uncharged + s'.adrift + s'.overdrawn
               == s.highTicks + s.uncharged + s.adrift + s.overdrawn + ExecutedAtHigh(s, steps, tick, timeslice)
            && (AlwaysCharged(s, steps, tick, timeslice) ==> s'.uncharged == s.uncharged)
    decreases |steps|
  {
    if steps != [] {
      hide Ticked;
      RunAccounts(Next(s, steps[0], tick, timeslice), steps[1..], tick, timeslice);
    }
  }

  // ------------------------------------------------------- current and real priority

  /** A thread without resources runs at its real priority. */
  predicate Matched(t: Thread) {
    t.resources == 0 ==> t.currentPriority == t.realPriority
  }

  /** The last resource is a mutex without inheritance or ceiling. */
  predicate PlainRelease(s: Server, step: Step) {
    step == Release(false) && s.thread.resources == 1
  }

  /** Current and real priority part company exactly at a plain release of the last resource while they differ. */
  lemma MatchedIff(s: Server, step: Step, tick: TickLength, timeslice: Unsigned32)
    requires Enabled(s, step) && Matched(s.thread)
    ensures Matched(Next(s, step, tick, timeslice).thread) <==>
              !(PlainRelease(s, step) && s.thread.currentPriority != s.thread.realPriority)
  {
    hide ToInterval;
  }

  /** A thread comes adrift exactly at a plain release of the last resource at high priority with a low real one. */
  lemma AdriftIff(s: Server, step: Step, tick: TickLength, timeslice: Unsigned32)
    requires Enabled(s, step) && !Adrift(s.thread)
    ensures Adrift(Next(s, step, tick, timeslice).thread) <==> Drifts(s, step)
  {
    hide ToInterval;
  }

  predicate Drifts(s: Server, step: Step) {
    PlainRelease(s, step) && s.thread.currentPriority == High(s.thread) != s.thread.realPriority
  }

  /** No step of the run is such a release. */
  predicate NeverDrifts(s: Server, steps: seq<Step>, tick: TickLength, timeslice: Unsigned32)
    requires CanRun(s, steps, tick, timeslice)
    decreases |steps|
  {
    steps == []
    || (!Drifts(s, steps[0]) && NeverDrifts(Next(s, steps[0], tick, timeslice), steps[1..], tick, timeslice))
  }

  /** In no state of the run is the thread adrift. */
  predicate NeverAdrift(s: Server, steps: seq<Step>, tick: TickLength, timeslice: Unsigned32)
    requires CanRun(s, steps, tick, timeslice)
    decreases |steps|
  {
    !Adrift(s.thread)
    && (steps == [] || NeverAdrift(Next(s, steps[0], tick, timeslice), steps[1..], tick, timeslice))
  }

  /**
    A run is free of ticks executed adrift, and of states in which the next tick would be
    one, exactly when it is free of such releases.
   */
  lemma {:induction false} NeverAdriftIff(s: Server, steps: seq<Step>, tick: TickLength, timeslice: Unsigned32)
    requires CanRun(s, steps, tick, timeslice) && !Adrift(s.thread)
    ensures NeverAdrift(s, steps, tick, timeslice) <==> NeverDrifts(s, steps, tick, timeslice)
    ensures NeverDrifts(s, steps, tick, timeslice) ==> Run(s, steps, tick, timeslice).adrift == s.adrift
    decreases |steps|
  {
    if steps != [] {
      AdriftIff(s, steps[0], tick, timeslice);
      var s1 := Next(s, steps[0], tick, timeslice);
      assert s1.adrift == s.adrift;
      if !Adrift(s1.thread) {
        hide Next, Adrift, Drifts;
        NeverAdriftIff(s1, steps[1..], tick, timeslice);
      }
    }
  }

  // ------------------------------------------------------- high priority on credit

  /** The clock takes the last tick of the budget of a thread that holds a resource at high priority, the higher one. */
  predicate Spends(t: Thread, tick: TickLength) {
    var t' := TimerTicked(t, tick);
    && t'.resources > 0 && t'.preemptible && t'.ready && t'.algorithm == Callout && Unsigned(t'.budget - 1) == 0
    && t'.currentPriority == High(t') < Low(t')
  }

  /**
    The step with which a thread that holds a resource comes to run at high priority with a
    low real one: its budget is spent there, it inherits its high priority, or it takes the
    resource adrift.
   */
  predicate Overdraws(s: Server, step: Step, tick: TickLength) {
    var t := s.thread;
    match step
    case Tick(executing) => executing && Spends(t, tick)
    case Inherit(priority) => priority == High(t) < t.currentPriority && t.realPriority != High(t)
    case Obtain => Adrift(t)
    case _ => false
  }

  /** A thread becomes overdrawn exactly at such a step. */
  lemma OverdrawnIff(s: Server, step: Step, tick: TickLength, timeslice: Unsigned32)
    requires Enabled(s, step) && !Overdrawn(s.thread)
    ensures Overdrawn(Next(s, step, tick, timeslice).thread) <==> Overdraws(s, step, tick)
  {
    hide ToInterval, Unsigned;
  }

  predicate NeverOverdraws(s: Server, steps: seq<Step>, tick: TickLength, timeslice: Unsigned32)
    requires CanRun(s, steps, tick, timeslice)
    decreases |steps|
  {
    steps == []
    || (&& !Overdraws(s, steps[0], tick)
        && NeverOverdraws(Next(s, steps[0], tick, timeslice), steps[1..], tick, timeslice))
  }

  predicate NeverOverdrawn(s: Server, steps: seq<Step>, tick: TickLength, timeslice: Unsigned32)
    requires CanRun(s, steps, tick, timeslice)
    decreases |steps|
  {
    !Overdrawn(s.thread)
    && (steps == [] || NeverOverdrawn(Next(s, steps[0], tick, timeslice), steps[1..], tick, timeslice))
  }

  /** A run is free of overdrawn states, and so of overdrawn ticks, exactly when it is free of such steps. */
  lemma {:induction false} NeverOverdrawnIff(s: Server, steps: seq<Step>, tick: TickLength, timeslice: Unsigned32)
    requires CanRun(s, steps, tick, timeslice) && !Overdrawn(s.thread)
    ensures NeverOverdrawn(s, steps, tick, timeslice) <==> NeverOverdraws(s, steps, tick, timeslice)
    ensures NeverOverdraws(s, steps, tick, timeslice) ==> Run(s, steps, tick, timeslice).overdrawn == s.overdrawn
    decreases |steps|
  {
    if steps != [] {
      OverdrawnIff(s, steps[0], tick, timeslice);
      var s1 := Next(s, steps[0], tick, timeslice);
      assert s1.overdrawn == s.overdrawn;
      if !Overdrawn(s1.thread) {
        hide Next, Overdrawn, Overdraws;
        NeverOverdrawnIff(s1, steps[1..], tick, timeslice);
      }
    }
  }

  /** Every plain release of the last resource finds current and real priority equal. */
  predicate NeverParts(s: Server, steps: seq<Step>, tick: TickLength, timeslice: Unsigned32)
    requires CanRun(s, steps, tick, timeslice)
    decreases |steps|
  {
    steps == []
    || (&& (PlainRelease(s, steps[0]) ==> s.thread.currentPriority == s.thread.realPriority)
        && NeverParts(Next(s, steps[0], tick, timeslice), steps[1..], tick, timeslice))
  }

  lemma {:induction false} RunMatched(s: Server, steps: seq<Step>, tick: TickLength, timeslice: Unsigned32)
    requires CanRun(s, steps, tick, timeslice) && Matched(s.thread) && NeverParts(s, steps, tick, timeslice)
    ensures Matched(Run(s, steps, tick, timeslice).thread) && NeverDrifts(s, steps, tick, timeslice)
    decreases |steps|
  {
    if steps != [] {
      MatchedIff(s, steps[0], tick, timeslice);
      RunMatched(Next(s, steps[0], tick, timeslice), steps[1..], tick, timeslice);
    }
  }

  /**
    From `pthread_setschedparam` on, in every run: between two replenishments, and since
    the last, the thread was charged at most its initial budget at high priority,
    replenishments come once a period, and so what it executes at high priority in any
    number of ticks is at most one budget more than a budget per whole period, up to the
    ticks the clock did not charge for, those executed adrift and those executed overdrawn.
    There are none of the first if the thread is preemptible and ready whenever it executes
    a tick, none of the second if no mutex is released that leaves it adrift, and none of
    the third if no step overdraws its budget.
   */
  lemma ServerBound(t: Thread, param: Param, steps: seq<Step>, tick: TickLength, timeslice: Unsigned32)
    requires Acceptable(Sporadic, param, tick) && param.priority != param.lowPriority
    requires CanRun(Start(Scheduled(t, Sporadic, param, tick, timeslice)), steps, tick, timeslice)
    ensures var s := Start(Scheduled(t, Sporadic, param, tick, timeslice));
            var s' := Run(s, steps, tick, timeslice);
            var budget, period := BudgetTicks(param, tick), PeriodTicks(param, tick);
            && s'.periodTicks <= budget && s'.lastPeriod <= budget
            && s'.replenishments == TickCount(steps) / period
            && ExecutedAtHigh(s, steps, tick, timeslice) <= (TickCount(steps) / period + 1) * budget
               + s'.uncharged + s'.adrift + s'.overdrawn
            && (AlwaysCharged(s, steps, tick, timeslice) ==> s'.uncharged == 0)
            && (NeverDrifts(s, steps, tick, timeslice) ==> s'.adrift == 0)
            && (NeverOverdraws(s, steps, tick, timeslice) ==> s'.overdrawn == 0)
            && (NeverParts(s, steps, tick, timeslice) ==> s'.adrift == 0 && Matched(s'.thread))
  {
    hide ToInterval, Serves, Acceptable;
    var s := Start(Scheduled(t, Sporadic, param, tick, timeslice));
    StartInv(t, param, tick, timeslice);
    StartMatched(t, param, tick, timeslice);
    hide Scheduled;
    var s' := Run(s, steps, tick, timeslice);
    var budget := BudgetTicks(param, tick);
    RunKeeps(s, steps, param, tick, timeslice);
    RunAccounts(s, steps, tick, timeslice);
    NeverAdriftIff(s, steps, tick, timeslice);
    NeverOverdrawnIff(s, steps, tick, timeslice);
    if NeverParts(s, steps, tick, timeslice) {
      RunMatched(s, steps, tick, timeslice);
    }
    assert (s'.replenishments + 1) * budget == s'.replenishments * budget + budget;
  }

  lemma StartMatched(t: Thread, param: Param, tick: TickLength, timeslice: Unsigned32)
    ensures var t' := Scheduled(t, Sporadic, param, tick, timeslice); Matched(t') && !Adrift(t') && !Overdrawn(t')
  {
    hide ToInterval;
  }

  /** A period as long as the budget is acceptable, whatever the tick, for every thread; the shortest run is possible. */
  lemma EqualTimesServe(t: Thread, high: int, low: int, time: Time, tick: TickLength, timeslice: Unsigned32)
    requires ValidPriority(high) && ValidPriority(low)
    ensures var param := Param(high, low, time, time);
            && Acceptable(Sporadic, param, tick)
            && CanRun(Start(Scheduled(t, Sporadic, param, tick, timeslice)), [], tick, timeslice)
  {
    hide ToInterval;
  }

  // ------------------------------------------------------------- the whole budget

  /** High while less than the budget is spent, with the rest of it left, and then low. */
  predicate Exact(s: Server, param: Param, tick: TickLength) {
    var t, initial := s.thread, BudgetTicks(param, tick);
    && t.param == param && t.algorithm == Callout
    && t.realPriority == (if s.spent < initial then High(t) else Low(t))
    && (s.spent < initial ==> t.budget == initial - s.spent)
  }

  lemma NextExact(s: Server, step: Step, param: Param, tick: TickLength, timeslice: Unsigned32)
    requires Exact(s, param, tick) && Enabled(s, step)
    ensures Exact(Next(s, step, tick, timeslice), param, tick)
  {
    hide ToInterval;
  }

  lemma {:induction false} RunExact(s: Server, steps: seq<Step>, param: Param, tick: TickLength, timeslice: Unsigned32)
    requires Exact(s, param, tick) && CanRun(s, steps, tick, timeslice)
    ensures Exact(Run(s, steps, tick, timeslice), param, tick)
    decreases |steps|
  {
    if steps != [] {
      hide Next, Exact;
      NextExact(s, steps[0], param, tick, timeslice);
      RunExact(Next(s, steps[0], tick, timeslice), steps[1..], param, tick, timeslice);
    }
  }

  /**
    The server gets its whole budget, and no more: in every run, the real priority is high
    exactly while fewer ticks than the initial budget were charged since the last
    replenishment, and without a resource the thread runs at it unless a plain mutex was
    released that left it at another.
   */
  lemma BudgetExactly(t: Thread, param: Param, steps: seq<Step>, tick: TickLength, timeslice: Unsigned32)
    requires CanRun(Start(Scheduled(t, Sporadic, param, tick, timeslice)), steps, tick, timeslice)
    ensures var s := Start(Scheduled(t, Sporadic, param, tick, timeslice));
            var s' := Run(s, steps, tick, timeslice);
            var t', initial := s'.thread, BudgetTicks(param, tick);
            && High(t') == 255 - param.priority && Low(t') == 255 - param.lowPriority
            && t'.realPriority == (if s'.spent < initial then High(t') else Low(t'))
            && (s'.spent < initial ==> t'.budget == initial - s'.spent)
            && (NeverParts(s, steps, tick, timeslice) && t'.resources == 0 ==> t'.currentPriority == t'.realPriority)
  {
    hide ToInterval;
    var s := Start(Scheduled(t, Sporadic, param, tick, timeslice));
    RunExact(s, steps, param, tick, timeslice);
    RunHigh(s, steps, tick, timeslice);
    StartMatched(t, param, tick, timeslice);
    if NeverParts(s, steps, tick, timeslice) {
      RunMatched(s, steps, tick, timeslice);
    }
  }

  /** A server that was accepted is never given a priority that is not valid. */
  lemma PrioritiesValid(t: Thread, param: Param, steps: seq<Step>, tick: TickLength, timeslice: Unsigned32)
    requires Acceptable(Sporadic, param, tick)
    requires CanRun(Start(Scheduled(t, Sporadic, param, tick, timeslice)), steps, tick, timeslice)
    ensures var s := Run(Start(Scheduled(t, Sporadic, param, tick, timeslice)), steps, tick, timeslice);
            1 <= s.thread.realPriority <= 254
  {
    hide ToInterval, Scheduled, NeverParts;
    BudgetExactly(t, param, steps, tick, timeslice);
  }

  lemma {:induction false} RunHigh(s: Server, steps: seq<Step>, tick: TickLength, timeslice: Unsigned32)
    requires CanRun(s, steps, tick, timeslice)
    ensures Run(s, steps, tick, timeslice).thread.highPriority == s.thread.highPriority
    decreases |steps|
  {
    if steps != [] {
      hide ToInterval;
      RunHigh(Next(s, steps[0], tick, timeslice), steps[1..], tick, timeslice);
    }
  }

  /** The steps of a thread that executes `n` ticks on end. */
  function Executes(n: nat): seq<Step> { seq(n, i => Tick(true)) }

  /** A preemptible, ready thread is charged every tick it executes. */
  lemma {:induction false} ExecutingSpends(s: Server, n: nat, tick: TickLength, timeslice: Unsigned32)
    requires s.thread.preemptible && s.thread.ready && s.thread.resources == 0 && Matched(s.thread)
    requires s.thread.timer.Running? && s.thread.timer.ticks > n
    ensures CanRun(s, Executes(n), tick, timeslice)
    ensures var s' := Run(s, Executes(n), tick, timeslice);
            && s'.spent == s.spent + n && s'.thread.timer == Running(s.thread.timer.ticks - n)
            && s'.thread.preemptible && s'.thread.ready && s'.thread.resources == 0 && Matched(s'.thread)
            && High(s'.thread) == High(s.thread) && Low(s'.thread) == Low(s.thread)
    decreases n
  {
    if n > 0 {
      hide ToInterval;
      assert Executes(n)[1..] == Executes(n - 1);
      ExecutingSpends(Next(s, Tick(true), tick, timeslice), n - 1, tick, timeslice);
    }
  }

  /**
    However far into its period, a preemptible, ready thread without resources that
    executes on end runs at high priority for what is left of its budget and then at low
    priority until the timer fires.
   */
  lemma BudgetLasts(s: Server, n: nat, param: Param, tick: TickLength, timeslice: Unsigned32)
    requires Exact(s, param, tick) && s.thread.resources == 0 && Matched(s.thread)
    requires s.thread.preemptible && s.thread.ready
    requires s.thread.timer.Running? && s.thread.timer.ticks > n
    ensures CanRun(s, Executes(n), tick, timeslice)
    ensures Run(s, Executes(n), tick, timeslice).thread.currentPriority ==
            if s.spent + n < BudgetTicks(param, tick) then High(s.thread) else Low(s.thread)
  {
    hide ToInterval;
    ExecutingSpends(s, n, tick, timeslice);
    RunExact(s, Executes(n), param, tick, timeslice);
  }

  /** The tick at which the timer fires starts a new budget and period, and is the first that may be charged to it. */
  lemma ReplenishedExactly(s: Server, executing: bool, param: Param, tick: TickLength, timeslice: Unsigned32)
    requires Exact(s, param, tick) && s.thread.timer == Running(1)
    ensures var s' := Next(s, Tick(executing), tick, timeslice);
            && Exact(s', param, tick) && s'.thread.timer == Running(PeriodTicks(param, tick))
            && s'.spent == (if executing && s.thread.preemptible && s.thread.ready then 1 else 0)
  {
    hide ToInterval;
    NextExact(s, Tick(executing), param, tick, timeslice);
  }

  /**
    After `pthread_setschedparam` a preemptible, ready thread without resources that
    executes on end is at high priority for exactly its initial budget, provided that the
    period is longer; with a period as long as the budget it stays there, unless both are
    one tick.
   */
  lemma FullBudget(t: Thread, n: nat, param: Param, tick: TickLength, timeslice: Unsigned32)
    requires Acceptable(Sporadic, param, tick)
    requires t.preemptible && t.ready && t.resources == 0 && n <= BudgetTicks(param, tick)
    ensures var s := Start(Scheduled(t, Sporadic, param, tick, timeslice));
            var budget, period := BudgetTicks(param, tick), PeriodTicks(param, tick);
            && CanRun(s, Executes(n), tick, timeslice)
            && Run(s, Executes(n), tick, timeslice).thread.currentPriority ==
                 if n < budget || (period == budget > 1) then 255 - param.priority else 255 - param.lowPriority
  {
    hide ToInterval;
    var s := Start(Scheduled(t, Sporadic, param, tick, timeslice));
    var budget, period := BudgetTicks(param, tick), PeriodTicks(param, tick);
    StartMatched(t, param, tick, timeslice);
    if n < period {
      BudgetLasts(s, n, param, tick, timeslice);
    } else {
      BudgetLasts(s, n - 1, param, tick, timeslice);
      ExecutingSpends(s, n - 1, tick, timeslice);
      RunExact(s, Executes(n - 1), param, tick, timeslice);
      var s1 := Run(s, Executes(n - 1), tick, timeslice);
      ExecutesMore(s, n - 1, tick, timeslice);
      ReplenishedExactly(s1, true, param, tick, timeslice);
      MatchedIff(s1, Tick(true), tick, timeslice);
    }
  }

  lemma {:induction false} ExecutesMore(s: Server, n: nat, tick: TickLength, timeslice: Unsigned32)
    requires CanRun(s, Executes(n), tick, timeslice)
    ensures CanRun(s, Executes(n + 1), tick, timeslice)
    ensures Run(s, Executes(n + 1), tick, timeslice) ==
            Next(Run(s, Executes(n), tick, timeslice), Tick(true), tick, timeslice)
    decreases n
  {
    assert Executes(n + 1)[1..] == Executes(n);
    if n > 0 {
      hide Next;
      assert Executes(n)[1..] == Executes(n - 1);
      ExecutesMore(Next(s, Tick(true), tick, timeslice), n - 1, tick, timeslice);
    }
  }

  lemma SliceCharged(t: Thread, used: nat, timeslice: Unsigned32)
    requires t.algorithm in {ResetTimeslice, ExhaustTimeslice} && t.preemptible && t.ready
    requires timeslice > 0 && t.budget == timeslice - used % timeslice
    ensures Charged(t, timeslice) == t.(budget := timeslice - (used + 1) % timeslice)
  {
    ClockAdvances(used, timeslice);
    UnsignedExact(t.budget - 1);
    hide Unsigned;
  }

  /** Under the other budget algorithms a thread that executes on end starts a new timeslice every `timeslice` ticks. */
  lemma {:induction false} SlicesLast(s: Server, n: nat, used: nat, tick: TickLength, timeslice: Unsigned32)
    requires s.thread.algorithm in {ResetTimeslice, ExhaustTimeslice} && s.thread.preemptible && s.thread.ready
    requires s.thread.timer == Stopped && timeslice > 0 && s.thread.budget == timeslice - used % timeslice
    ensures CanRun(s, Executes(n), tick, timeslice)
    ensures Run(s, Executes(n), tick, timeslice).thread.budget == timeslice - (used + n) % timeslice
    decreases n
  {
    if n > 0 {
      assert Executes(n)[1..] == Executes(n - 1);
      SliceCharged(s.thread, used, timeslice);
      hide Charged;
      SlicesLast(Next(s, Tick(true), tick, timeslice), n - 1, used + 1, tick, timeslice);
    }
  }

  /** Whatever the policy, a thread without resources runs at the priority it was given, and more is more urgent. */
  lemma PriorityTakesEffect(t: Thread, policy: Policy, param: Param, tick: TickLength, timeslice: Unsigned32)
    requires Acceptable(policy, param, tick)
    ensures var t' := Scheduled(t, policy, param, tick, timeslice);
            && t'.realPriority == 255 - param.priority && 1 <= t'.realPriority <= 254
            && (t.resources == 0 ==> t'.currentPriority == t'.realPriority)
            && t'.policy == policy != Unknown && t'.param == param
            && t'.budget == (if policy.Sporadic? then BudgetTicks(param, tick) else timeslice)
            && (policy.Sporadic? ==> t'.timer == Running(PeriodTicks(param, tick)))
            && (!policy.Sporadic? && t.policy.Sporadic? ==> t'.timer == Stopped)
  {
    hide ToInterval;
  }

  // -------------------------------------------------------------- where it ends

  /** A thread that is not preemptible is never charged and keeps its high priority for good. */
  lemma {:induction false} NonPreemptibleUncharged(s: Server, n: nat, tick: TickLength, timeslice: Unsigned32)
    requires s.thread.currentPriority == s.thread.realPriority == High(s.thread)
    requires !s.thread.preemptible
    ensures CanRun(s, Executes(n), tick, timeslice)
    ensures Run(s, Executes(n), tick, timeslice).uncharged == s.uncharged + n
    decreases n
  {
    if n > 0 {
      assert Executes(n)[1..] == Executes(n - 1);
      NonPreemptibleUncharged(Next(s, Tick(true), tick, timeslice), n - 1, tick, timeslice);
    }
  }

  /**
    A budget that runs out under a plain mutex sets the thread adrift, and with its low
    priority's budget: from then on every tick it executes is at high priority, until the
    timer replenishes it.
   */
  lemma PlainMutexKeepsHigh(s: Server, tick: TickLength, timeslice: Unsigned32)
    requires var t := s.thread;
             && t.algorithm == Callout && t.budget == 1 && t.preemptible && t.ready && t.timer != Running(1)
             && t.resources == 1 && t.currentPriority == High(t) < Low(t)
    ensures var s' := Next(Next(s, Tick(true), tick, timeslice), Release(false), tick, timeslice);
            && Adrift(s'.thread) && s'.thread.budget == BUDGET_AT_LOW
            && Next(s', Tick(true), tick, timeslice).adrift == s.adrift + 1
  {
    hide ToInterval;
  }

  /** The same release with budget left is harmless. */
  lemma PlainMutexHarmless(s: Server, tick: TickLength, timeslice: Unsigned32)
    requires var t := s.thread;
             && t.algorithm == Callout && t.budget > 1 && t.timer != Running(1) && t.resources == 1
             && t.currentPriority == t.realPriority
    ensures Matched(Next(Next(s, Tick(true), tick, timeslice), Release(false), tick, timeslice).thread)
  {
    hide ToInterval;
  }

  /**
    A thread that spent its budget under a mutex goes on at high priority: every tick it
    executes while it holds the mutex is overdrawn, for as long as neither its timer nor
    the budget of its low priority runs out.
   */
  lemma {:induction false} HolderRunsOn(s: Server, n: nat, tick: TickLength, timeslice: Unsigned32)
    requires Overdrawn(s.thread) && s.thread.algorithm == Callout && s.thread.budget > n
    requires s.thread.timer.Running? && s.thread.timer.ticks > n
    ensures CanRun(s, Executes(n), tick, timeslice)
    ensures Run(s, Executes(n), tick, timeslice).overdrawn == s.overdrawn + n
    decreases n
  {
    if n > 0 {
      hide ToInterval;
      assert Executes(n)[1..] == Executes(n - 1);
      HolderRunsOn(Next(s, Tick(true), tick, timeslice), n - 1, tick, timeslice);
    }
  }
}

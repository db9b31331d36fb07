/**
  `_Watchdog_Insert` under interrupts.  Its walk along the chain lets interrupts in after
  each node; they may tick the chain, remove and insert other timers, and cancel the
  insertion.  A change of the chain's structure makes the walk start over.
 */
module WatchdogInsert {
  import opened Watchdog

  /** Where the insertion is when interrupts can come in. */
  datatype Phase = Starting | Walking(passed: nat, left: nat) | Done | Aborted

  /**
    `now` counts ticks, `start` is the tick of the last start of the walk, and `disturbed`
    says that `_Watchdog_Sync_level` is above the level of the insertion.
   */
  datatype State = State(chain: Chain, now: nat, disturbed: bool, cancelled: bool, phase: Phase, start: nat)

  /** The timer to insert and its interval. */
  datatype Request = Request(id: Id, initial: nat)

  datatype Step =
    | Tick
    | RemoveOther(k: nat)
    | InsertOther(id: Id, n: nat)
    | Cancel
    | Resume

  predicate Enabled(s: State, step: Step) {
    && (s.phase.Starting? || s.phase.Walking?)
    && (step.RemoveOther? ==> step.k < |s.chain|)
    && (step.InsertOther? ==> step.n > 0)
    && (step.Resume? && s.phase.Walking? && !s.disturbed && !s.cancelled ==> s.phase.passed <= |s.chain|)
  }

  /** What a step does to a chain when no insertion is under way. */
  function Interrupted(c: Chain, step: Step, routines: Routines): Chain
    requires step.RemoveOther? ==> step.k < |c|
  {
    match step
    case Tick => Tickled(c, routines).chain
    case RemoveOther(k) => Removed(c, k)
    case InsertOther(id, n) => Inserted(c, id, n)
    case Cancel => c
    case Resume => c
  }

  /** Whether a step removes or inserts a timer and so disturbs the walk. */
  predicate Disturbs(c: Chain, step: Step, routines: Routines) {
    step.RemoveOther? || step.InsertOther? || (step.Tick? && Tickled(c, routines).fired != [])
  }

  /** One round of the loop, with `passed` nodes behind and `left` ticks to go. */
  function Walk(s: State, r: Request, passed: nat, left: nat): State
    requires passed <= |s.chain|
  {
    if left == 0 || passed == |s.chain| || left < s.chain[passed].delta then
      s.(chain := s.chain[..passed] + Inserted(s.chain[passed..], r.id, left), phase := Done)
    else
      s.(phase := Walking(passed + 1, left - s.chain[passed].delta))
  }

  function Next(s: State, r: Request, step: Step, routines: Routines): State
    requires Enabled(s, step)
  {
    if step.Resume? then
      match s.phase
      case Starting => Walk(s.(start := s.now), r, 0, r.initial)
      case Walking(passed, left) =>
        if s.cancelled then s.(phase := Aborted, disturbed := false)
        else if s.disturbed then s.(phase := Starting, disturbed := false)
        else Walk(s, r, passed, left)
      case _ => s
    else
      s.(chain := Interrupted(s.chain, step, routines),
         now := s.now + (if step.Tick? then 1 else 0),
         disturbed := s.disturbed || Disturbs(s.chain, step, routines),
         cancelled := s.cancelled || step.Cancel?)
  }

  // ----------------------------------------------------------------------- invariant

  /** An undisturbed walk has its ticks to go measured from the deadline of the last node passed. */
  predicate Inv(s: State, r: Request) {
    && Settled(s.chain)
    && s.start <= s.now
    && (s.phase.Walking? && !s.disturbed ==>
          && 1 <= s.phase.passed <= |s.chain|
          && Timers(s.chain, s.now)[s.phase.passed - 1].1 + s.phase.left == s.start + r.initial)
  }

  lemma QuietTick(c: Chain, routines: Routines, now: nat)
    requires Settled(c) && Tickled(c, routines).fired == []
    ensures Timers(Tickled(c, routines).chain, now + 1) == Timers(c, now)
  {
    if c != [] {
      LowerFirstTimers(c, 1, now);
    }
  }

  lemma InterruptedSettled(c: Chain, step: Step, routines: Routines)
    requires Settled(c) && (step.RemoveOther? ==> step.k < |c|) && (step.InsertOther? ==> step.n > 0)
    ensures Settled(Interrupted(c, step, routines))
  {
    hide FireDue;
    if step.Tick? {
      TickledSettles(c, routines);
    }
  }

  /** The deadline of the last node, or the present. */
  function End(c: Chain, now: nat): nat {
    if c == [] then now else End(c[1..], now + c[0].delta)
  }

  lemma {:induction false} TimersConcat(c: Chain, d: Chain, now: nat)
    ensures Timers(c + d, now) == Timers(c, now) + Timers(d, End(c, now))
  {
    if c == [] {
      assert c + d == d;
    } else {
      assert (c + d)[1..] == c[1..] + d;
      TimersConcat(c[1..], d, now + c[0].delta);
    }
  }

  lemma {:induction false} EndLast(c: Chain, now: nat)
    requires c != []
    ensures Timers(c, now)[|c| - 1].1 == End(c, now)
  {
    if |c| > 1 {
      EndLast(c[1..], now + c[0].delta);
    }
  }

  /** What follows the first `p` nodes counts from the deadline of the last of them. */
  lemma TimersFrom(c: Chain, now: nat, p: nat, base: nat, d: Chain)
    requires p <= |c| && base == (if p == 0 then now else Timers(c, now)[p - 1].1)
    ensures Timers(c, now)[p..] == Timers(c[p..], base)
    ensures Timers(c[..p] + d, now) == Timers(c, now)[..p] + Timers(d, base)
  {
    assert c == c[..p] + c[p..];
    TimersConcat(c[..p], c[p..], now);
    TimersConcat(c[..p], d, now);
    if p > 0 {
      EndLast(c[..p], now);
    }
  }

  /** `ts` with one more deadline somewhere. */
  predicate WithTimer(ts: seq<Timer>, x: Timer, ts': seq<Timer>) {
    exists q :: 0 <= q <= |ts| && ts' == ts[..q] + [x] + ts[q..]
  }

  /** The placement behind `p` nodes. */
  lemma Placed(c: Chain, now: nat, p: nat, id: Id, left: nat, base: nat)
    requires p <= |c| && base == (if p == 0 then now else Timers(c, now)[p - 1].1)
    ensures WithTimer(Timers(c, now), (id, base + left), Timers(c[..p] + Inserted(c[p..], id, left), now))
  {
    hide Inserted, Timers;
    var ts, q := Timers(c, now), Place(c[p..], left);
    InsertedTimers(c[p..], id, left, base);
    TimersFrom(c, now, p, base, Inserted(c[p..], id, left));
    var rest := Timers(c[p..], base);
    assert ts[..p] + (rest[..q] + [(id, base + left)] + rest[q..]) == ts[..p + q] + [(id, base + left)] + ts[p + q..];
  }

  /** A round of the walk either goes on undisturbed or adds the one deadline it is for. */
  lemma WalkKeeps(s: State, r: Request, passed: nat, left: nat, base: nat)
    requires Settled(s.chain) && s.start <= s.now && r.initial > 0
    requires passed <= |s.chain| && base == (if passed == 0 then s.now else Timers(s.chain, s.now)[passed - 1].1)
    requires base + left == s.start + r.initial && (passed == 0 ==> left > 0)
    ensures var s' := Walk(s, r, passed, left);
            && Inv(s', r)
            && (if s'.phase.Done?
                then WithTimer(Timers(s.chain, s.now), (r.id, s.start + r.initial), Timers(s'.chain, s.now))
                else s'.chain == s.chain)
  {
    var s' := Walk(s, r, passed, left);
    if s'.phase.Done? {
      Placed(s.chain, s.now, passed, r.id, left, base);
    } else {
      NextDeadline(s.chain, s.now, passed, base);
    }
  }

  lemma NextDeadline(c: Chain, now: nat, p: nat, base: nat)
    requires p < |c| && base == (if p == 0 then now else Timers(c, now)[p - 1].1)
    ensures Timers(c, now)[p].1 == base + c[p].delta
  {
    TimersFrom(c, now, p, base, []);
    assert Timers(c, now)[p] == Timers(c, now)[p..][0];
  }

  lemma NextKeeps(s: State, r: Request, step: Step, routines: Routines)
    requires Inv(s, r) && r.initial > 0 && Enabled(s, step)
    ensures var s' := Next(s, r, step, routines);
            && Inv(s', r)
            && (if s'.phase.Done?
                then WithTimer(Timers(s.chain, s.now), (r.id, s'.start + r.initial), Timers(s'.chain, s.now))
                else s'.chain == Interrupted(s.chain, step, routines))
            && s.now <= s'.now && (s'.start == s.start || s'.start == s.now)
  {
    hide Inserted, FireDue, WithTimer, Timers;
    if step.Resume? {
      if s.phase.Starting? {
        WalkKeeps(s.(start := s.now), r, 0, r.initial, s.now);
      } else if !s.cancelled && !s.disturbed {
        var passed := s.phase.passed;
        WalkKeeps(s, r, passed, s.phase.left, Timers(s.chain, s.now)[passed - 1].1);
      }
    } else {
      InterruptedSettled(s.chain, step, routines);
      if step.Tick? && Tickled(s.chain, routines).fired == [] {
        QuietTick(s.chain, routines, s.now);
      }
    }
  }

  // ------------------------------------------------------------------------------ runs

  predicate CanRun(s: State, r: Request, steps: seq<Step>, routines: Routines)
    decreases |steps|
  {
    steps == [] || (Enabled(s, steps[0]) && CanRun(Next(s, r, steps[0], routines), r, steps[1..], routines))
  }

  function Run(s: State, r: Request, steps: seq<Step>, routines: Routines): State
    requires CanRun(s, r, steps, routines)
    decreases |steps|
  {
    if steps == [] then s else Run(Next(s, r, steps[0], routines), r, steps[1..], routines)
  }

  /** The chain that the interrupts of a run alone would leave. */
  function Undisturbed(c: Chain, steps: seq<Step>, routines: Routines): Chain
    decreases |steps|
  {
    if steps == [] then c
    else if steps[0].RemoveOther? && steps[0].k >= |c| then c
    else Undisturbed(Interrupted(c, steps[0], routines), steps[1..], routines)
  }

  /** The state `s` of an insertion against the chain `c` that interrupts alone leave. */
  predicate Consistent(s: State, c: Chain, r: Request) {
    if s.phase.Done? then WithTimer(Timers(c, s.now), (r.id, s.start + r.initial), Timers(s.chain, s.now))
    else s.chain == c
  }

  /**
    However interrupts fall, until an insertion is done the chain is the one the interrupts
    alone leave, and so it stays if the insertion is aborted.  When it is done, the chain
    has exactly one more deadline: the full interval after the tick at which the walk that
    placed it started.
   */
  lemma {:induction false} InsertionCorrect(s: State, r: Request, steps: seq<Step>, routines: Routines)
    requires Inv(s, r) && r.initial > 0 && CanRun(s, r, steps, routines) && (s.phase.Starting? || s.phase.Walking?)
    ensures var s' := Run(s, r, steps, routines);
            Inv(s', r) && s.start <= s'.start && Consistent(s', Undisturbed(s.chain, steps, routines), r)
    decreases |steps|
  {
    if steps != [] {
      var s1 := Next(s, r, steps[0], routines);
      NextConsistent(s, r, steps[0], routines);
      hide Interrupted, Next;
      if s1.phase.Done? || s1.phase.Aborted? {
        hide Inv, Consistent;
        assert steps[1..] == [];
      } else {
        InsertionCorrect(s1, r, steps[1..], routines);
        assert s1.chain == Interrupted(s.chain, steps[0], routines);
        hide Inv, Consistent;
      }
    }
  }

  lemma NextConsistent(s: State, r: Request, step: Step, routines: Routines)
    requires Inv(s, r) && r.initial > 0 && Enabled(s, step)
    ensures var s' := Next(s, r, step, routines);
            Inv(s', r) && s.start <= s'.start && Consistent(s', Interrupted(s.chain, step, routines), r)
  {
    hide WithTimer, Timers, Walk, Interrupted;
    NextKeeps(s, r, step, routines);
    if Next(s, r, step, routines).phase.Done? {
      FinalStep(s, r, step, routines);
    }
  }

  /** The insertion ends in a section of its own, at which no interrupt acts. */
  lemma FinalStep(s: State, r: Request, step: Step, routines: Routines)
    requires Enabled(s, step) && !Next(s, r, step, routines).phase.Starting? && !Next(s, r, step, routines).phase.Walking?
    ensures Interrupted(s.chain, step, routines) == s.chain && Next(s, r, step, routines).now == s.now
  {
  }

  // ---------------------------------------------------------------------- cancellation

  /**
    A cancelled insertion is done all the same exactly when the walk starts with it
    cancelled and ends at its first node: the state is looked at only between nodes.
   */
  lemma CancelLostIff(s: State, r: Request, step: Step, routines: Routines)
    requires Enabled(s, step) && r.initial > 0
    ensures var s' := Next(s, r, step, routines);
            s'.phase.Done? && s'.cancelled <==>
              step.Resume? && s.phase.Starting? && s.cancelled && (s.chain == [] || r.initial < s.chain[0].delta)
  {
    hide Tickled, Inserted, Removed;
  }

  /** A cancellation once the walk is under way always holds: no run from there adds the timer. */
  lemma {:induction false} CancelledWalkAborts(s: State, r: Request, steps: seq<Step>, routines: Routines)
    requires CanRun(s, r, steps, routines) && s.phase.Walking? && s.cancelled
    ensures var s' := Run(s, r, steps, routines);
            && (s'.phase.Walking? || s'.phase.Aborted?) && s'.cancelled
            && s'.chain == Undisturbed(s.chain, steps, routines)
    decreases |steps|
  {
    if steps != [] {
      hide Interrupted;
      var s1 := Next(s, r, steps[0], routines);
      if steps[0].Resume? {
        assert s1.phase.Aborted? && steps[1..] == [];
        FinalStep(s, r, steps[0], routines);
      } else {
        CancelledWalkAborts(s1, r, steps[1..], routines);
      }
    }
  }

  /** An insertion is cancelled only by a cancellation, and aborted only if it is cancelled. */
  lemma {:induction false} AbortedOnlyIfCancelled(s: State, r: Request, steps: seq<Step>, routines: Routines)
    requires CanRun(s, r, steps, routines) && (s.phase.Aborted? ==> s.cancelled)
    ensures var s' := Run(s, r, steps, routines);
            (s'.cancelled <==> s.cancelled || Cancel in steps) && (s'.phase.Aborted? ==> s'.cancelled)
    decreases |steps|
  {
    if steps != [] {
      hide Interrupted, Disturbs, Walk;
      WalkEnds(s, r, steps[0]);
      AbortedOnlyIfCancelled(Next(s, r, steps[0], routines), r, steps[1..], routines);
    }
  }

  lemma WalkEnds(s: State, r: Request, step: Step)
    requires Enabled(s, step)
    ensures s.phase.Starting? ==>
              var w := Walk(s.(start := s.now), r, 0, r.initial); w.cancelled == s.cancelled && !w.phase.Aborted?
    ensures s.phase.Walking? && s.phase.passed <= |s.chain| ==>
              var w := Walk(s, r, s.phase.passed, s.phase.left); w.cancelled == s.cancelled && !w.phase.Aborted?
  {
  }

  function Resumes(n: nat): seq<Step> {
    seq(n, i => Resume)
  }

  /** The rounds an insertion still needs at most. */
  function Rounds(s: State): nat {
    match s.phase
    case Starting => if s.disturbed then |s.chain| + 3 else |s.chain| + 1
    case Walking(passed, _) =>
      if s.disturbed then |s.chain| + 2 else if passed <= |s.chain| then |s.chain| - passed + 1 else 0
    case _ => 0
  }

  /** An insertion that is not cancelled, when interrupts leave it alone, is done after a round for each node and three. */
  lemma {:induction false} InsertionCompletes(s: State, r: Request, routines: Routines) returns (n: nat)
    requires Inv(s, r) && r.initial > 0 && (s.phase.Starting? || s.phase.Walking?) && !s.cancelled
    ensures n <= Rounds(s) <= |s.chain| + 3
    ensures CanRun(s, r, Resumes(n), routines) && Run(s, r, Resumes(n), routines).phase.Done?
    decreases Rounds(s)
  {
    hide Timers, Inserted, Settled, Interrupted, Disturbs;
    NextKeeps(s, r, Resume, routines);
    var s' := Next(s, r, Resume, routines);
    if s'.phase.Done? {
      n := 1;
    } else {
      n := InsertionCompletes(s', r, routines);
      n := n + 1;
    }
    assert Resumes(n)[1..] == Resumes(n - 1);
  }

  /** It happens: an insertion into an empty chain, cancelled just before its walk starts, still adds the timer. */
  lemma CancelLost(r: Request, now: nat, routines: Routines)
    requires r.initial > 0
    ensures var s := State([], now, false, false, Starting, now);
            var s' := Next(Next(s, r, Cancel, routines), r, Resume, routines);
            Inv(s, r) && s'.phase.Done? && s'.cancelled && s'.chain == [Node(r.id, r.initial)]
  {
    var c: Chain := [];
    assert c[..0] + Inserted(c[0..], r.id, r.initial) == [Node(r.id, r.initial)];
  }
}

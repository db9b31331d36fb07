/**
  No sleeper is forgotten: a receive with a time limit is timed out in the end, and one
  that is decided does not sleep on.
 */
module EventTimeouts {
  import opened Basics
  import opened EventManager
  import opened EventInvariant
  import opened EventTheorems

  /** The thread sleeps on its receive, or will when its open window closes undecided. */
  predicate Asleep(l: Local) {
    if l.own.None? then l.th.waiting
    else l.sync == NothingHappened && l.own.value.IsWindow() && (l.own.value.SeizeResolve? ==> l.th.waiting)
  }

  /** It has a time limit and no timer that will fire. */
  predicate Untimed(l: Local) {
    && Asleep(l) && l.th.call.Some? && l.th.call.value.ticks != 0
    && (l.own.Some? ==> !l.own.value.SeizeTimer?) && l.th.timer != Active
  }

  /** Its receive has its events or is timed out. */
  predicate Decided(l: Local) {
    Asleep(l) && (l.th.out.Some? || l.th.code == TimedOut)
  }

  /** An operation that ends the receive of its thread. */
  predicate Ends(f: Frame) {
    f.IsTimeout() || f.IsServing()
  }

  /** An operation that readies its thread. */
  predicate Readies(f: Frame) {
    f.TimeoutUnblock? || f.IsServing()
  }

  predicate HasEnd(frames: seq<Frame>, t: nat) {
    exists i :: 0 <= i < |frames| && Ends(frames[i]) && frames[i].thread == t
  }

  predicate HasReady(frames: seq<Frame>, t: nat) {
    exists i :: 0 <= i < |frames| && Readies(frames[i]) && frames[i].thread == t
  }

  predicate TimelyAt(s: State, t: nat)
    requires t < |s.threads|
  {
    var l := LocalOf(s, t);
    (Untimed(l) ==> HasEnd(s.frames, t)) && (Decided(l) ==> HasReady(s.frames, t))
  }

  predicate Timely(s: State) {
    Inv(s) && forall t :: 0 <= t < |s.threads| ==> TimelyAt(s, t)
  }

  lemma SectionUntimed(l: Local, executing: bool, f: Frame)
    requires ThreadOk(l) && FrameOk(f, l) && Placed(l, executing)
    ensures var next := Section(l.th, l.sync, executing, f).next;
            Untimed(After(l, executing, f)) ==>
              (next.Some? && Ends(next.value)) || (Untimed(l) && !Ends(f))
  {
  }

  lemma SectionDecided(l: Local, executing: bool, f: Frame)
    requires ThreadOk(l) && FrameOk(f, l) && Placed(l, executing)
    ensures var next := Section(l.th, l.sync, executing, f).next;
            Decided(After(l, executing, f)) ==>
              (next.Some? && Readies(next.value)) || (Decided(l) && !Readies(f))
  {
  }

  /** The operations below the top stay, and the top goes on as it says. */
  lemma SectionKeepsEnds(s: State, t: nat)
    requires Inv(s) && s.frames != []
    ensures var s', f := Next(s, RunSection), Top(s);
            && (HasEnd(s.frames, t) && !(Ends(f) && f.thread == t) ==> HasEnd(s'.frames, t))
            && (HasReady(s.frames, t) && !(Readies(f) && f.thread == t) ==> HasReady(s'.frames, t))
  {
    hide Section, ThreadInv, FrameInv, Ends, Readies;
    var s', f := Next(s, RunSection), Top(s);
    if HasEnd(s.frames, t) && !(Ends(f) && f.thread == t) {
      var i :| 0 <= i < |s.frames| && Ends(s.frames[i]) && s.frames[i].thread == t;
      assert s'.frames[i] == s.frames[i];
    }
    if HasReady(s.frames, t) && !(Readies(f) && f.thread == t) {
      var i :| 0 <= i < |s.frames| && Readies(s.frames[i]) && s.frames[i].thread == t;
      assert s'.frames[i] == s.frames[i];
    }
  }

  lemma SectionTimelyTop(s: State)
    requires Timely(s) && s.frames != []
    ensures TimelyAt(Next(s, RunSection), Top(s).thread)
  {
    var s', f := Next(s, RunSection), Top(s);
    var t, top := f.thread, |s.frames| - 1;
    var l := LocalOf(s, t);
    assert FrameInv(s, top) && ThreadInv(s, t) && TimelyAt(s, t);
    SectionFrame(s);
    SectionKeepsEnds(s, t);
    SectionUntimed(l, t == s.executing, f);
    SectionDecided(l, t == s.executing, f);
    SectionKind(l, t == s.executing, f);
    hide Section, ThreadOk, FrameOk, Untimed, Decided, Ends, Readies, ThreadInv, FrameInv, After;
    var next := Section(l.th, l.sync, t == s.executing, f).next;
    if next.Some? {
      assert s'.frames[top] == next.value;
    }
  }

  lemma SectionTimely(s: State)
    requires Timely(s) && s.frames != []
    ensures Timely(Next(s, RunSection))
  {
    var s' := Next(s, RunSection);
    SectionPreserves(s);
    SectionFrame(s);
    SectionTimelyTop(s);
    hide Section, ThreadOk, FrameOk, HasEnd, HasReady, Ends, Readies, After, NeedsWakeup, HasPosted, HasRemover;
    forall t | 0 <= t < |s'.threads|
      ensures TimelyAt(s', t)
    {
      if t != Top(s).thread {
        assert ThreadInv(s, t) && TimelyAt(s, t);
        SectionKeepsEnds(s, t);
      }
    }
  }

  lemma ActionKeepsEnds(s: State, action: Action, t: nat)
    requires Inv(s) && Enabled(s, action) && !action.RunSection?
    ensures HasEnd(s.frames, t) ==> HasEnd(Next(s, action).frames, t)
    ensures HasReady(s.frames, t) ==> HasReady(Next(s, action).frames, t)
  {
    ActionFrame(s, action);
    hide Next, Inv, Ends, Readies;
    var s' := Next(s, action);
    if HasEnd(s.frames, t) {
      var i :| 0 <= i < |s.frames| && Ends(s.frames[i]) && s.frames[i].thread == t;
      assert s'.frames[i] == s.frames[i];
    }
    if HasReady(s.frames, t) {
      var i :| 0 <= i < |s.frames| && Readies(s.frames[i]) && s.frames[i].thread == t;
      assert s'.frames[i] == s.frames[i];
    }
  }

  lemma ActionTimelyAt(s: State, action: Action, t: nat)
    requires Timely(s) && Enabled(s, action) && !action.RunSection? && t < |s.threads|
    ensures TimelyAt(Next(s, action), t)
  {
    var s' := Next(s, action);
    ActionFrame(s, action);
    ActionKeepsEnds(s, action, t);
    assert ThreadInv(s, t) && TimelyAt(s, t);
    if action == TimerExpires(t) && s.threads[t].timer == Active {
      assert Ends(s'.frames[|s.frames|]);
    }
    hide HasEnd, HasReady, HasPosted, HasRemover;
  }

  lemma ActionTimely(s: State, action: Action)
    requires Timely(s) && Enabled(s, action) && !action.RunSection?
    ensures Timely(Next(s, action))
  {
    ActionPreserves(s, action);
    hide TimelyAt, Inv;
    var s' := Next(s, action);
    forall t | 0 <= t < |s'.threads|
      ensures TimelyAt(s', t)
    {
      ActionTimelyAt(s, action, t);
    }
  }

  lemma {:induction false} RunTimely(s: State, actions: seq<Action>)
    requires Timely(s) && CanRun(s, actions)
    ensures Timely(Run(s, actions))
    decreases |actions|
  {
    if actions != [] {
      if actions[0].RunSection? {
        SectionTimely(s);
      } else {
        ActionTimely(s, actions[0]);
      }
      RunTimely(Next(s, actions[0]), actions[1..]);
    }
  }

  lemma ReachableTimely(s: State)
    requires Reachable(s)
    ensures Timely(s)
  {
    var init, actions :| WellFormed(init) && Initial(init) && CanRun(init, actions) && s == Run(init, actions);
    RunTimely(init, actions);
  }

  // --------------------------------------------------------------- theorems

  /**
    No lost timeout: a thread asleep outside its own seize on a receive with a time limit
    has its timer running, or an operation that ends its receive is in progress.
   */
  lemma NoLostTimeout(s: State, t: nat)
    requires Reachable(s) && t < |s.threads| && s.threads[t].waiting && LocalOf(s, t).own.None?
    ensures s.threads[t].call.Some?
    ensures s.threads[t].call.value.ticks != 0 ==> s.threads[t].timer == Active || HasEnd(s.frames, t)
  {
    ReachableTimely(s);
    assert ThreadInv(s, t) && TimelyAt(s, t);
  }

  /** A thread asleep outside its own seize whose receive is decided is about to be readied. */
  lemma DecidedIsReadied(s: State, t: nat)
    requires Reachable(s) && t < |s.threads| && s.threads[t].waiting && LocalOf(s, t).own.None?
    requires s.threads[t].out.Some? || s.threads[t].code == TimedOut
    ensures HasReady(s.frames, t)
  {
    ReachableTimely(s);
    assert TimelyAt(s, t);
  }

  /**
    When no operation is in progress, a thread sleeps only on a receive that is not
    decided, for a condition that is not met, and with its timer running if it has a limit.
   */
  lemma SleepersAtRest(s: State, t: nat)
    requires Reachable(s) && t < |s.threads| && s.frames == [] && s.threads[t].waiting
    ensures var th := s.threads[t];
            && th.call.Some? && th.code == Successful && th.out.None?
            && !Satisfies(th.pending, th.call.value.events, th.call.value.options)
            && (th.timer == Active <==> th.call.value.ticks != 0)
  {
    ReachableTimely(s);
    assert ThreadInv(s, t) && TimelyAt(s, t);
  }

  /** The expiry of a sleeping thread's timer readies it with a timeout, whatever is in progress. */
  lemma ExpiryWakes(s: State, t: nat)
    requires Reachable(s) && t < |s.threads| && s.threads[t].waiting && LocalOf(s, t).own.None?
    requires s.threads[t].timer == Active
    ensures WellFormed(s) && Enabled(s, TimerExpires(t))
    ensures var s1 := Next(s, TimerExpires(t));
            s1.frames != [] &&
            var s2 := Next(s1, RunSection);
            s2.frames != [] &&
            var s3 := Next(s2, RunSection);
            && |s3.threads| == |s.threads| && s3.frames == s.frames && s3.sync == s.sync
            && !s3.threads[t].waiting && s3.threads[t].code == TimedOut
  {
    ReachableInv(s);
    assert ThreadInv(s, t);
    var s1 := Next(s, TimerExpires(t));
    assert Top(s1) == TimeoutCheck(t) && s1.frames[..|s.frames|] == s.frames;
    CheckedOut(s1, s.frames, t);
    var s2 := Next(s1, RunSection);
    assert Top(s2) == TimeoutUnblock(t) && s2.frames[..|s.frames|] == s.frames;
  }

  lemma CheckedOut(s: State, below: seq<Frame>, t: nat)
    requires WellFormed(s) && s.frames == below + [TimeoutCheck(t)]
    requires s.sync == Synchronized || t != s.executing
    ensures var s' := Next(s, RunSection);
            && s'.frames == below + [TimeoutUnblock(t)] && |s'.threads| == |s.threads|
            && s'.threads[t].code == TimedOut && s'.sync == s.sync
  {
    assert s.frames[..|s.frames| - 1] == below;
  }

  // ---------------------------------------------------------------- progress

  /** How many sections an operation still has at most. */
  function Length(f: Frame): nat {
    match f
    case SeizeTest(_, _) => 6
    case SeizeTimer(_, _) => 5
    case SeizeBlock(_) => 4
    case SeizeResolve(_) => 3
    case SeizeRemove(_) => 2
    case SeizeUnblock(_) => 1
    case SendPost(_, _) => 6
    case SurrenderRead(_) => 5
    case SurrenderTest(_, _) => 4
    case SurrenderFlash(_) => 3
    case SurrenderRemove(_) => 2
    case SurrenderUnblock(_) => 1
    case TimeoutCheck(_) => 2
    case TimeoutMark(_) => 1
    case TimeoutUnblock(_) => 1
  }

  function Work(frames: seq<Frame>): nat {
    if frames == [] then 0 else Work(frames[..|frames| - 1]) + Length(frames[|frames| - 1])
  }

  function Sections(n: nat): seq<Action> {
    seq(n, i => RunSection)
  }

  /** Left to themselves the operations in progress end, after at most six sections each. */
  lemma {:induction false} OperationsEnd(s: State) returns (n: nat)
    requires WellFormed(s)
    ensures n <= Work(s.frames) <= 6 * |s.frames|
    ensures CanRun(s, Sections(n)) && Run(s, Sections(n)).frames == []
    decreases Work(s.frames)
  {
    WorkBounded(s.frames);
    if s.frames == [] {
      n := 0;
    } else {
      var s' := Next(s, RunSection);
      SectionShortens(s);
      hide Next, Work;
      n := OperationsEnd(s');
      n := n + 1;
      assert Sections(n)[1..] == Sections(n - 1);
    }
  }

  lemma {:induction false} WorkBounded(frames: seq<Frame>)
    ensures Work(frames) <= 6 * |frames|
  {
    if frames != [] {
      WorkBounded(frames[..|frames| - 1]);
    }
  }

  lemma SectionLength(th: Thread, sync: SyncState, executing: bool, f: Frame)
    ensures var next := Section(th, sync, executing, f).next;
            next.Some? ==> Length(next.value) < Length(f)
  {
  }

  lemma SectionShortens(s: State)
    requires WellFormed(s) && s.frames != []
    ensures Work(Next(s, RunSection).frames) < Work(s.frames)
  {
    var f, below := Top(s), s.frames[..|s.frames| - 1];
    var next := Section(s.threads[f.thread], s.sync, f.thread == s.executing, f).next;
    SectionLength(s.threads[f.thread], s.sync, f.thread == s.executing, f);
    hide Section, Length;
    if next.Some? {
      assert (below + [next.value])[..|below|] == below;
    }
  }
}

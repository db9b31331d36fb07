/**
  What every atomic section of the event manager keeps, over any number of threads and
  any nesting of interrupts.
 */
module EventInvariant {
  import opened Basics
  import opened EventManager

  /** One thread as a section sees it: `own` is its own frame while it is inside `_Event_Seize`. */
  datatype Local = Local(th: Thread, own: Option<Frame>, sync: SyncState)

  /** The output variable holds a correct answer to the receive in progress. */
  predicate Answers(th: Thread) {
    && th.call.Some?
    && th.out.Some?
    && var request := th.call.value;
       th.out.value != {} && th.out.value <= request.events &&
       (request.options.any || th.out.value == request.events)
  }

  /** The wait information is that of the receive in progress. */
  predicate Blocking(th: Thread) {
    && th.call.Some?
    && th.waitCount == th.call.value.events
    && th.waitOption == th.call.value.options
    && !th.call.value.options.noWait
    && th.code != Unsatisfied
  }

  /** A receive that was not satisfied was not to wait, and what it found did not satisfy it. */
  predicate Refused(th: Thread) {
    && th.call.Some? && th.call.value.options.noWait
    && th.out.Some? && th.out.value <= th.pending * th.call.value.events
    && !Satisfies(th.out.value, th.call.value.events, th.call.value.options)
  }

  predicate InWindow(l: Local) {
    l.own.Some? && l.own.value.IsWindow()
  }

  /** What holds of a thread at each point of its own `_Event_Seize`. */
  predicate OwnerOk(th: Thread, sync: SyncState, f: Frame) {
    match f
    case SeizeTest(_, request) =>
      th.call == Some(request) && th.code == Successful && th.out.None? && !th.waiting && th.timer == Inactive
    case SeizeTimer(_, ticks) =>
      && Blocking(th) && ticks == th.call.value.ticks && th.code == Successful && !th.waiting && th.timer == Inactive
      && sync != Timeout
      && (sync == Satisfied ==> Answers(th))
    case SeizeBlock(_) =>
      && Blocking(th) && th.code == Successful && !th.waiting
      && (sync == Timeout ==> th.timer != Active)
      && (sync == Satisfied ==> Answers(th))
    case SeizeResolve(_) =>
      && Blocking(th) && th.code == Successful
      && (sync == Timeout ==> th.timer != Active)
      && (sync == Satisfied ==> Answers(th))
      && (!th.waiting && sync == NothingHappened ==> Answers(th) && th.timer != Active)
    case SeizeRemove(_) => Blocking(th) && th.timer != Active && (th.code == Successful ==> Answers(th))
    case SeizeUnblock(_) => Blocking(th) && th.timer != Active && (th.code == Successful ==> Answers(th))
    case _ => false
  }

  predicate ThreadOk(l: Local) {
    var th := l.th;
    && (th.call.None? ==> !th.waiting && th.timer == Inactive && l.own.None?)
    && (th.call.Some? ==> th.call.value.events != {})
    && (th.waiting || th.timer == Active ==> Blocking(th))
    && (th.call.Some? && th.code == Unsatisfied ==> Refused(th))
    && (th.call.Some? && th.code == TimedOut ==> !th.call.value.options.noWait)
    && (th.call.Some? && l.own.None? && !th.waiting ==>
          th.timer != Active && (th.code == Successful ==> Answers(th)))
    && LimitOk(l)
    && (l.own.Some? ==>
          OwnerOk(th, l.sync, l.own.value) && (l.own.value.IsWindow() <==> l.sync != Synchronized))
  }

  /** Only a receive with a time limit has a timer or times out. */
  predicate LimitOk(l: Local) {
    var th := l.th;
    th.call.Some? && (th.timer != Inactive || th.code == TimedOut || (InWindow(l) && l.sync == Timeout)) ==>
      th.call.value.ticks != 0
  }

  /** What an operation in progress on the thread may rely on. */
  predicate FrameOk(f: Frame, l: Local) {
    var th := l.th;
    && (f.IsSeize() ==> l.own == Some(f))
    && (f.SurrenderTest? ==> f.option == th.waitOption)
    && (f.IsServing() ==>
          Blocking(th) && Answers(th) &&
          (l.own.Some? ==> !l.own.value.SeizeTest? && !l.own.value.SeizeTimer? && !l.own.value.SeizeBlock?))
    && (f.SurrenderRemove? || f.SurrenderUnblock? ==> th.timer != Active)
    && (f.IsTimeout() ==>
          Blocking(th) && th.timer == Inactive && th.call.value.ticks != 0 &&
          (l.own.Some? ==> !l.own.value.SeizeTest? && !l.own.value.SeizeTimer?))
    && (f.TimeoutMark? ==> InWindow(l))
    && (f.TimeoutUnblock? ==> th.code == TimedOut && !InWindow(l))
  }

  /** The thread is asleep, or may still fall asleep, although its pending events satisfy its condition. */
  predicate NeedsWakeup(l: Local) {
    && (if l.own.Some? then l.own.value.IsWindow() && l.sync == NothingHappened else l.th.waiting)
    && Satisfies(l.th.pending, l.th.waitCount, l.th.waitOption)
  }

  /** The thread after one section of `f`. */
  function After(l: Local, executing: bool, f: Frame): Local {
    var e := Section(l.th, l.sync, executing, f);
    Local(e.thread, if f.IsSeize() then e.next else l.own, e.sync)
  }

  /** A section on the executing thread while it is outside `_Event_Seize` meets SYNCHRONIZED. */
  predicate Placed(l: Local, executing: bool) {
    (l.own.Some? ==> executing) && (executing && l.own.None? ==> l.sync == Synchronized)
  }

  lemma SeizeThread(l: Local, executing: bool, f: Frame)
    requires ThreadOk(l) && FrameOk(f, l) && Placed(l, executing) && f.IsSeize()
    ensures ThreadOk(After(l, executing, f)) && Placed(After(l, executing, f), executing)
  {
  }

  lemma OtherThread(l: Local, executing: bool, f: Frame)
    requires ThreadOk(l) && FrameOk(f, l) && Placed(l, executing) && !f.IsSeize()
    ensures ThreadOk(After(l, executing, f)) && Placed(After(l, executing, f), executing)
  {
  }

  /** One section keeps what holds of its thread. */
  lemma SectionThread(l: Local, executing: bool, f: Frame)
    requires ThreadOk(l) && FrameOk(f, l) && Placed(l, executing)
    ensures ThreadOk(After(l, executing, f)) && Placed(After(l, executing, f), executing)
  {
    hide ThreadOk, FrameOk, After, Placed;
    if f.IsSeize() {
      SeizeThread(l, executing, f);
    } else {
      OtherThread(l, executing, f);
    }
  }

  /** One section keeps what the other operations on its thread rely on. */
  lemma SectionOther(l: Local, executing: bool, f: Frame, g: Frame)
    requires ThreadOk(l) && FrameOk(f, l) && FrameOk(g, l) && Placed(l, executing)
    requires !f.IsSeize()
    ensures FrameOk(g, After(l, executing, f))
  {
  }

  lemma SeizeNext(l: Local, executing: bool, f: Frame)
    requires ThreadOk(l) && FrameOk(f, l) && Placed(l, executing) && f.IsSeize()
    ensures var e := Section(l.th, l.sync, executing, f);
            e.next.Some? ==> FrameOk(e.next.value, After(l, executing, f)) && e.next.value.thread == f.thread
  {
  }

  lemma OtherNext(l: Local, executing: bool, f: Frame)
    requires ThreadOk(l) && FrameOk(f, l) && Placed(l, executing) && !f.IsSeize()
    ensures var e := Section(l.th, l.sync, executing, f);
            e.next.Some? ==> FrameOk(e.next.value, After(l, executing, f)) && e.next.value.thread == f.thread
  {
  }

  lemma SectionNext(l: Local, executing: bool, f: Frame)
    requires ThreadOk(l) && FrameOk(f, l) && Placed(l, executing)
    ensures var e := Section(l.th, l.sync, executing, f);
            e.next.Some? ==> FrameOk(e.next.value, After(l, executing, f)) && e.next.value.thread == f.thread
  {
    hide ThreadOk, FrameOk, After, Placed, Section;
    if f.IsSeize() {
      SeizeNext(l, executing, f);
    } else {
      OtherNext(l, executing, f);
    }
  }

  /** One section that leaves a thread in need of a wakeup is a post, or found it so. */
  lemma SectionWakeup(l: Local, executing: bool, f: Frame)
    requires ThreadOk(l) && FrameOk(f, l) && Placed(l, executing)
    ensures NeedsWakeup(After(l, executing, f)) ==> f.SendPost? || (NeedsWakeup(l) && !f.SurrenderTest?)
  {
  }

  /** A timer marked for removal has an operation that will remove it. */
  lemma SectionRemover(l: Local, executing: bool, f: Frame)
    ensures var next := Section(l.th, l.sync, executing, f).next;
            After(l, executing, f).th.timer == RemoveIt ==>
              || (next.Some? && (next.value.SeizeRemove? || next.value.SurrenderRemove?) && next.value.thread == f.thread)
              || (l.th.timer == RemoveIt && !f.SeizeRemove? && !f.SurrenderRemove?)
  {
  }

  /** A section changes the synchronization state only on behalf of the executing thread. */
  lemma SectionSync(l: Local, executing: bool, f: Frame)
    requires ThreadOk(l) && FrameOk(f, l) && Placed(l, executing)
    ensures After(l, executing, f).sync == l.sync || executing
  {
  }

  /** An operation goes on on its own thread, and only a seize goes on as one. */
  lemma SectionKind(l: Local, executing: bool, f: Frame)
    requires FrameOk(f, l)
    ensures var e := Section(l.th, l.sync, executing, f);
            && (e.next.Some? ==> e.next.value.thread == f.thread && (e.next.value.IsSeize() <==> f.IsSeize()))
            && (f.IsSeize() ==> l.own == Some(f))
  {
  }

  function LocalOf(s: State, t: nat): Local
    requires t < |s.threads|
  {
    Local(s.threads[t],
          if s.frames != [] && s.frames[0].IsSeize() && s.frames[0].thread == t then Some(s.frames[0]) else None,
          s.sync)
  }

  predicate HasPosted(frames: seq<Frame>, t: nat) {
    exists i :: 0 <= i < |frames| && frames[i].IsPosted() && frames[i].thread == t
  }

  predicate HasRemover(frames: seq<Frame>, t: nat) {
    exists i :: 0 <= i < |frames| && (frames[i].SeizeRemove? || frames[i].SurrenderRemove?) && frames[i].thread == t
  }

  predicate ThreadInv(s: State, t: nat)
    requires t < |s.threads|
  {
    var l := LocalOf(s, t);
    && ThreadOk(l)
    && Placed(l, t == s.executing)
    && (NeedsWakeup(l) ==> HasPosted(s.frames, t))
    && (l.th.timer == RemoveIt ==> HasRemover(s.frames, t))
  }

  predicate FrameInv(s: State, i: nat)
    requires WellFormed(s) && i < |s.frames|
  {
    && (s.frames[i].IsSeize() ==> i == 0)
    && FrameOk(s.frames[i], LocalOf(s, s.frames[i].thread))
  }

  /** The invariant of the event manager. */
  predicate Inv(s: State) {
    && WellFormed(s)
    && (forall t :: 0 <= t < |s.threads| ==> ThreadInv(s, t))
    && (forall i :: 0 <= i < |s.frames| ==> FrameInv(s, i))
  }

  /** The frames below the top and the threads the section does not touch. */
  lemma SectionFrame(s: State)
    requires Inv(s) && s.frames != []
    ensures var s' := Next(s, RunSection);
            var top := |s.frames| - 1;
            && top <= |s'.frames| <= top + 1
            && (forall i :: 0 <= i < top ==> s'.frames[i] == s.frames[i])
            && LocalOf(s', Top(s).thread) == After(LocalOf(s, Top(s).thread), Top(s).thread == s.executing, Top(s))
            && (forall t :: 0 <= t < |s.threads| && t != Top(s).thread ==>
                  LocalOf(s', t) == LocalOf(s, t).(sync := s'.sync))
            && (s'.sync == s.sync || Top(s).thread == s.executing)
  {
    hide Section, ThreadOk, FrameOk, NeedsWakeup, HasPosted, HasRemover;
    var f := Top(s);
    assert FrameInv(s, |s.frames| - 1) && ThreadInv(s, f.thread);
    SectionKind(LocalOf(s, f.thread), f.thread == s.executing, f);
    SectionSync(LocalOf(s, f.thread), f.thread == s.executing, f);
  }

  /** A posted send stays on the stack until it tests its receiver. */
  lemma SectionKeepsPosted(s: State, t: nat)
    requires Inv(s) && s.frames != []
    requires HasPosted(s.frames, t)
    requires !(Top(s).SurrenderTest? && Top(s).thread == t)
    ensures HasPosted(Next(s, RunSection).frames, t)
  {
    var s' := Next(s, RunSection);
    var i :| 0 <= i < |s.frames| && s.frames[i].IsPosted() && s.frames[i].thread == t;
    assert s'.frames[i] == if i < |s.frames| - 1 then s.frames[i] else SurrenderTest(t, s.threads[t].waitOption);
  }

  lemma SectionKeepsRemover(s: State, t: nat)
    requires Inv(s) && s.frames != []
    requires HasRemover(s.frames, t)
    requires !((Top(s).SeizeRemove? || Top(s).SurrenderRemove?) && Top(s).thread == t)
    ensures HasRemover(Next(s, RunSection).frames, t)
  {
    var s' := Next(s, RunSection);
    var i :| 0 <= i < |s.frames| && (s.frames[i].SeizeRemove? || s.frames[i].SurrenderRemove?) && s.frames[i].thread == t;
    assert s'.frames[i] == s.frames[i];
  }

  lemma SectionThreadInv(s: State, t: nat)
    requires Inv(s) && s.frames != [] && t < |s.threads| && t == Top(s).thread
    ensures ThreadInv(Next(s, RunSection), t)
  {
    var s' := Next(s, RunSection);
    var top := |s.frames| - 1;
    var f := Top(s);
    var l := LocalOf(s, t);
    SectionFrame(s);
    assert FrameInv(s, top) && ThreadInv(s, t);
    SectionThread(l, t == s.executing, f);
    SectionWakeup(l, t == s.executing, f);
    SectionNext(l, t == s.executing, f);
    SectionRemover(l, t == s.executing, f);
    var l' := LocalOf(s', t);
    if NeedsWakeup(l') {
      if f.SendPost? {
        assert s'.frames[top] == SurrenderRead(t);
      } else {
        SectionKeepsPosted(s, t);
      }
    }
    if l'.th.timer == RemoveIt {
      var next := Section(l.th, l.sync, t == s.executing, f).next;
      if next.Some? && (next.value.SeizeRemove? || next.value.SurrenderRemove?) {
        assert s'.frames[top] == next.value;
      } else {
        SectionKeepsRemover(s, t);
      }
    }
  }

  lemma SectionOtherThreadInv(s: State, t: nat)
    requires Inv(s) && s.frames != [] && t < |s.threads| && t != Top(s).thread
    ensures ThreadInv(Next(s, RunSection), t)
  {
    SectionFrame(s);
    assert ThreadInv(s, t);
    if HasPosted(s.frames, t) {
      SectionKeepsPosted(s, t);
    }
    if HasRemover(s.frames, t) {
      SectionKeepsRemover(s, t);
    }
  }

  lemma SectionFrameInv(s: State, i: nat)
    requires Inv(s) && s.frames != [] && i < |Next(s, RunSection).frames|
    ensures FrameInv(Next(s, RunSection), i)
  {
    hide ThreadOk, NeedsWakeup, HasPosted, HasRemover;
    var top := |s.frames| - 1;
    var f := Top(s);
    var l := LocalOf(s, f.thread);
    SectionFrame(s);
    assert FrameInv(s, top) && FrameInv(s, i) && FrameInv(s, 0) && ThreadInv(s, f.thread);
    if i == top {
      SectionNext(l, f.thread == s.executing, f);
    } else if s.frames[i].thread == f.thread {
      SectionOther(l, f.thread == s.executing, f, s.frames[i]);
    }
  }

  lemma SectionPreserves(s: State)
    requires Inv(s) && s.frames != []
    ensures Inv(Next(s, RunSection))
  {
    hide ThreadInv, FrameInv;
    var s' := Next(s, RunSection);
    forall t | 0 <= t < |s'.threads|
      ensures ThreadInv(s', t)
    {
      if t == Top(s).thread {
        SectionThreadInv(s, t);
      } else {
        SectionOtherThreadInv(s, t);
      }
    }
    forall i | 0 <= i < |s'.frames|
      ensures FrameInv(s', i)
    {
      SectionFrameInv(s, i);
    }
  }

  /** The frames and threads that the other actions leave alone. */
  lemma ActionFrame(s: State, action: Action)
    requires Inv(s) && Enabled(s, action) && !action.RunSection?
    ensures var s' := Next(s, action);
            && |s'.threads| == |s.threads| && s'.sync == s.sync
            && |s.frames| <= |s'.frames| <= |s.frames| + 1
            && (forall i :: 0 <= i < |s.frames| ==> s'.frames[i] == s.frames[i])
            && (s.frames != [] ==> s'.executing == s.executing)
  {
  }

  lemma ActionKeepsOperations(s: State, action: Action, t: nat)
    requires Inv(s) && Enabled(s, action) && !action.RunSection?
    ensures HasPosted(s.frames, t) ==> HasPosted(Next(s, action).frames, t)
    ensures HasRemover(s.frames, t) ==> HasRemover(Next(s, action).frames, t)
  {
    var s' := Next(s, action);
    ActionFrame(s, action);
    if HasPosted(s.frames, t) {
      var i :| 0 <= i < |s.frames| && s.frames[i].IsPosted() && s.frames[i].thread == t;
      assert s'.frames[i] == s.frames[i];
    }
    if HasRemover(s.frames, t) {
      var i :| 0 <= i < |s.frames| && (s.frames[i].SeizeRemove? || s.frames[i].SurrenderRemove?) && s.frames[i].thread == t;
      assert s'.frames[i] == s.frames[i];
    }
  }

  lemma ActionThreadInv(s: State, action: Action, t: nat)
    requires Inv(s) && Enabled(s, action) && !action.RunSection? && t < |s.threads|
    ensures ThreadInv(Next(s, action), t)
  {
    hide HasPosted, HasRemover;
    assert ThreadInv(s, t) && ThreadInv(s, s.executing);
    ActionFrame(s, action);
    ActionKeepsOperations(s, action, t);
  }

  lemma ActionFrameInv(s: State, action: Action, i: nat)
    requires Inv(s) && Enabled(s, action) && !action.RunSection? && i < |Next(s, action).frames|
    ensures FrameInv(Next(s, action), i)
  {
    hide HasPosted, HasRemover, NeedsWakeup;
    ActionFrame(s, action);
    assert ThreadInv(s, Next(s, action).frames[i].thread);
    if i < |s.frames| {
      assert FrameInv(s, i) && FrameInv(s, 0);
    }
  }

  lemma ActionPreserves(s: State, action: Action)
    requires Inv(s) && Enabled(s, action) && !action.RunSection?
    ensures Inv(Next(s, action))
  {
    hide ThreadInv, FrameInv;
    var s' := Next(s, action);
    forall t | 0 <= t < |s'.threads|
      ensures ThreadInv(s', t)
    {
      ActionThreadInv(s, action, t);
    }
    forall i | 0 <= i < |s'.frames|
      ensures FrameInv(s', i)
    {
      ActionFrameInv(s, action, i);
    }
  }

  /** Every action keeps the invariant. */
  lemma NextPreserves(s: State, action: Action)
    requires Inv(s) && Enabled(s, action)
    ensures Inv(Next(s, action))
  {
    if action.RunSection? {
      SectionPreserves(s);
    } else {
      ActionPreserves(s, action);
    }
  }

  lemma {:induction false} RunPreserves(s: State, actions: seq<Action>)
    requires Inv(s) && CanRun(s, actions)
    ensures Inv(Run(s, actions))
    decreases |actions|
  {
    if actions != [] {
      NextPreserves(s, actions[0]);
      RunPreserves(Next(s, actions[0]), actions[1..]);
    }
  }

  lemma ReachableInv(s: State)
    requires Reachable(s)
    ensures Inv(s)
  {
    var init, actions :| WellFormed(init) && Initial(init) && CanRun(init, actions) && s == Run(init, actions);
    assert Inv(init);
    RunPreserves(init, actions);
  }
}

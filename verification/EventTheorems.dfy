/**
  What the event manager promises over whole runs: no wakeup is lost, a successful
  receive is answered correctly, events are neither lost nor invented, and the
  synchronization state settles the race between a send and a timeout.
 */
module EventTheorems {
  import opened Basics
  import opened EventManager
  import opened EventInvariant

  lemma {:induction false} RunAppend(s: State, actions: seq<Action>, action: Action)
    requires WellFormed(s) && CanRun(s, actions) && Enabled(Run(s, actions), action)
    ensures CanRun(s, actions + [action])
    ensures Run(s, actions + [action]) == Next(Run(s, actions), action)
    decreases |actions|
  {
    if actions == [] {
      assert actions + [action] == [action];
      assert [action][1..] == [];
    } else {
      RunAppend(Next(s, actions[0]), actions[1..], action);
      assert (actions + [action])[1..] == actions[1..] + [action];
    }
  }

  lemma ReachableNext(s: State, action: Action)
    requires Reachable(s) && WellFormed(s) && Enabled(s, action)
    ensures Reachable(Next(s, action))
  {
    var init, actions :| WellFormed(init) && Initial(init) && CanRun(init, actions) && s == Run(init, actions);
    RunAppend(init, actions, action);
  }

  // ---------------------------------------------------------------- wakeups

  /** No operation on `t` is in progress: neither its own seize nor a send past its post. */
  predicate Quiet(s: State, t: nat)
    requires t < |s.threads|
  {
    LocalOf(s, t).own.None? && !HasPosted(s.frames, t)
  }

  /** No lost wakeup: a thread asleep on an event condition has not been sent what it waits for. */
  lemma NoLostWakeup(s: State, t: nat)
    requires Reachable(s) && t < |s.threads| && Quiet(s, t) && s.threads[t].waiting
    ensures !Satisfies(s.threads[t].pending, s.threads[t].waitCount, s.threads[t].waitOption)
  {
    ReachableInv(s);
    assert ThreadInv(s, t);
  }

  /**
    With SYNCHRONIZED alone instead of a finished seize the claim has one exception: a
    thread that `_Event_Seize` is about to ready again.
   */
  lemma SynchronizedWakeup(s: State, t: nat)
    requires Reachable(s) && t < |s.threads| && s.sync == Synchronized && !HasPosted(s.frames, t)
    requires s.threads[t].waiting
    requires Satisfies(s.threads[t].pending, s.threads[t].waitCount, s.threads[t].waitOption)
    ensures s.frames != [] && (s.frames[0] == SeizeRemove(t) || s.frames[0] == SeizeUnblock(t))
  {
    ReachableInv(s);
    assert ThreadInv(s, t);
  }

  // --------------------------------------------------------------- receives

  /**
    A receive that returns successfully has in its output variable a non-empty part of
    what it asked for, all of it unless any event would do; one that returns a timeout
    had a time limit and was to wait; one that returns unsatisfied was not to wait and
    found, and left pending, too little; and no timer is left running behind it.
   */
  lemma ReceiveCorrect(s: State)
    requires Reachable(s) && WellFormed(s) && Enabled(s, ReturnFromReceive)
    ensures var th := Executing(s);
            var request := th.call.value;
            && (th.code == Successful ==>
                  && th.out.Some? && th.out.value != {} && th.out.value <= request.events
                  && (!request.options.any ==> th.out.value == request.events))
            && (th.code == TimedOut ==> request.ticks != 0 && !request.options.noWait)
            && (th.code == Unsatisfied ==>
                  && request.options.noWait && th.out.Some? && th.out.value <= th.pending * request.events
                  && !Satisfies(th.out.value, request.events, request.options))
            && th.timer == Inactive
  {
    ReachableInv(s);
    assert ThreadInv(s, s.executing);
  }

  /** A receive is answered on the spot exactly when its condition is met; otherwise it is refused or blocks. */
  lemma ReceiveDecides(s: State)
    requires Reachable(s) && s.frames != [] && Top(s).SeizeTest?
    ensures WellFormed(s)
    ensures var request, s' := Top(s).request, Next(s, RunSection);
            var th, th' := s.threads[s.executing], s'.threads[s.executing];
            && Top(s).thread == s.executing
            && (s'.frames == [] <==> Satisfies(th.pending, request.events, request.options) || request.options.noWait)
            && (s'.frames == [] ==>
                  && !th'.waiting && th'.out == Some(th.pending * request.events)
                  && (th'.code == Successful <==> Satisfies(th.pending, request.events, request.options))
                  && th'.pending == if th'.code == Successful then th.pending - request.events else th.pending)
            && (s'.frames != [] ==> InWindow(LocalOf(s', s.executing)))
  {
    ReachableInv(s);
    var top := |s.frames| - 1;
    assert FrameInv(s, top) && ThreadInv(s, Top(s).thread);
  }

  /** The `EVENT_SYNC_SYNCHRONIZED` case of `_Event_Seize` cannot happen. */
  lemma ResolveNeverSynchronized(s: State)
    requires Reachable(s) && s.frames != [] && Top(s).SeizeResolve?
    ensures s.sync != Synchronized
  {
    ReachableInv(s);
    var top := |s.frames| - 1;
    assert FrameInv(s, top) && ThreadInv(s, Top(s).thread);
  }

  // ----------------------------------------------------------- conservation

  /** The events in the output variable of the receive in progress that were taken from the pending set. */
  function Held(th: Thread): multiset<EventBit> {
    if th.call.Some? && th.code != Unsatisfied && th.out.Some? then multiset(th.out.value) else multiset{}
  }

  /** Every posted event bit is pending, was returned, is held for a caller, or was overwritten. */
  predicate Balanced(th: Thread) {
    && th.ledger.posted == th.ledger.seized + multiset(th.pending)
    && th.ledger.seized == th.ledger.delivered + th.ledger.overwritten + Held(th)
  }

  lemma ConsumeBalanced(th: Thread, events: EventSet)
    requires Balanced(th) && events <= th.pending && th.call.Some? && th.code != Unsatisfied
    ensures Balanced(Consume(th, events))
  {
    assert multiset(th.pending) == multiset(th.pending - events) + multiset(events);
  }

  lemma PostBalanced(th: Thread, sync: SyncState, executing: bool, f: Frame)
    requires Balanced(th) && f.SendPost?
    ensures Balanced(Section(th, sync, executing, f).thread)
  {
    assert multiset(th.pending + f.events) == multiset(th.pending) + multiset(f.events - th.pending);
  }

  lemma SeizeTestBalanced(th: Thread, sync: SyncState, t: nat, request: Request)
    requires Balanced(th) && th.call.Some? && th.code == Successful && th.out.None?
    ensures Balanced(SeizeTestSection(th, sync, t, request).thread)
  {
    var seized := th.pending * request.events;
    if seized != {} && (seized == request.events || request.options.any) {
      ConsumeBalanced(th, seized);
    }
  }

  /** A thread with the accounts of one of two others is balanced if they are. */
  lemma SameAccounts(a: Thread, th: Thread, b: Thread)
    requires Balanced(a) && Balanced(b) && (th == b || th.(verdict := a.verdict) == a)
    ensures Balanced(th)
  {
  }

  lemma SurrenderTestBalanced(th: Thread, sync: SyncState, executing: bool, t: nat, option: Options)
    requires Balanced(th)
    requires th.waiting || (executing && sync != Synchronized) ==> th.call.Some? && th.code != Unsatisfied
    ensures Balanced(SurrenderTestSection(th, sync, executing, t, option).thread)
  {
    var seized := th.pending * th.waitCount;
    if th.waiting || (executing && sync != Synchronized) {
      ConsumeBalanced(th, seized);
      SameAccounts(Consume(th, seized), SurrenderTestSection(th, sync, executing, t, option).thread, th);
    }
  }

  lemma OtherBalanced(l: Local, executing: bool, f: Frame)
    requires ThreadOk(l) && FrameOk(f, l) && Balanced(l.th)
    requires !f.SendPost? && !f.SeizeTest? && !f.SurrenderTest?
    ensures Balanced(Section(l.th, l.sync, executing, f).thread)
  {
    OtherAccounts(l, executing, f);
    hide Section, ThreadOk, FrameOk;
  }

  /** No other section touches what is accounted for. */
  lemma OtherAccounts(l: Local, executing: bool, f: Frame)
    requires ThreadOk(l) && FrameOk(f, l)
    requires !f.SendPost? && !f.SeizeTest? && !f.SurrenderTest?
    ensures var th, th' := l.th, Section(l.th, l.sync, executing, f).thread;
            && th'.ledger == th.ledger && th'.pending == th.pending
            && th'.call == th.call && th'.out == th.out && (th'.code == Unsatisfied <==> th.code == Unsatisfied)
  {
  }

  predicate AllBalanced(s: State) {
    forall t :: 0 <= t < |s.threads| ==> Balanced(s.threads[t])
  }

  lemma SectionBalanced(s: State)
    requires Inv(s) && s.frames != [] && Balanced(s.threads[Top(s).thread])
    ensures Balanced(Next(s, RunSection).threads[Top(s).thread])
  {
    var f := Top(s);
    var l := LocalOf(s, f.thread);
    var executing := f.thread == s.executing;
    assert ThreadInv(s, f.thread) && FrameInv(s, |s.frames| - 1);
    if f.SendPost? {
      PostBalanced(l.th, s.sync, executing, f);
    } else if f.SeizeTest? {
      SeizeTestBalanced(l.th, s.sync, f.thread, f.request);
    } else if f.SurrenderTest? {
      SurrenderTestBalanced(l.th, s.sync, executing, f.thread, f.option);
    } else {
      OtherBalanced(l, executing, f);
    }
  }

  lemma NextBalanced(s: State, action: Action)
    requires Inv(s) && Enabled(s, action) && AllBalanced(s)
    ensures AllBalanced(Next(s, action))
  {
    if action.RunSection? {
      SectionBalanced(s);
    }
  }

  lemma {:induction false} RunBalanced(s: State, actions: seq<Action>)
    requires Inv(s) && AllBalanced(s) && CanRun(s, actions)
    ensures AllBalanced(Run(s, actions))
    decreases |actions|
  {
    if actions != [] {
      NextPreserves(s, actions[0]);
      NextBalanced(s, actions[0]);
      RunBalanced(Next(s, actions[0]), actions[1..]);
    }
  }

  /**
    Over every run and for each event bit of each thread: the posts that set the bit
    equal the seizures plus one if it is pending, and the seizures equal what callers got
    back, what one is about to get back, and what a second send overwrote.
   */
  lemma EventsConserved(s: State, t: nat, bit: EventBit)
    requires Reachable(s) && t < |s.threads|
    ensures var th := s.threads[t];
            && th.ledger.posted[bit] == th.ledger.seized[bit] + (if bit in th.pending then 1 else 0)
            && th.ledger.seized[bit] == th.ledger.delivered[bit] + th.ledger.overwritten[bit] + Held(th)[bit]
  {
    var init, actions :| WellFormed(init) && Initial(init) && CanRun(init, actions) && s == Run(init, actions);
    assert Inv(init);
    RunBalanced(init, actions);
    assert Balanced(s.threads[t]);
  }

  lemma SectionOverwrites(l: Local, executing: bool, f: Frame)
    requires ThreadOk(l) && FrameOk(f, l)
    ensures After(l, executing, f).th.ledger.overwritten != l.th.ledger.overwritten ==> f.SurrenderTest? && l.th.out.Some?
  {
  }

  /** Events are overwritten only by a send that satisfies a receive already answered. */
  lemma OverwrittenOnlyBySecondSend(s: State, action: Action, t: nat)
    requires Inv(s) && Enabled(s, action) && t < |s.threads|
    requires Next(s, action).threads[t].ledger.overwritten != s.threads[t].ledger.overwritten
    ensures action.RunSection? && Top(s).SurrenderTest? && Top(s).thread == t && s.threads[t].out.Some?
  {
    if action.RunSection? {
      hide Section, ThreadOk, FrameOk, NeedsWakeup, HasPosted, HasRemover;
      SectionFrame(s);
      assert FrameInv(s, |s.frames| - 1) && ThreadInv(s, Top(s).thread);
      SectionOverwrites(LocalOf(s, Top(s).thread), Top(s).thread == s.executing, Top(s));
    }
  }

  /** The thread was sent `events`: they are pending, and those that were not are recorded. */
  predicate Sent(th: Thread, th': Thread, events: EventSet) {
    && th'.pending == th.pending + events
    && th'.ledger.posted == th.ledger.posted + multiset(events - th.pending)
    && th'.ledger.seized == th.ledger.seized
  }

  /** Nothing left the pending set, or all of it that the thread has asked for did, and is recorded as seized. */
  predicate Took(th: Thread, th': Thread) {
    && th'.ledger.posted == th.ledger.posted
    && th'.ledger.seized == th.ledger.seized + multiset(th.pending - th'.pending)
    && (th'.pending == th.pending || (th.call.Some? && th'.pending == th.pending - th.call.value.events))
  }

  lemma TookNothing(th: Thread, th': Thread)
    requires th'.pending == th.pending
    requires th'.ledger.posted == th.ledger.posted && th'.ledger.seized == th.ledger.seized
    ensures Took(th, th')
  {
    assert multiset(th.pending - th'.pending) == multiset{};
  }

  lemma TookAll(th: Thread, th': Thread)
    requires th.call.Some?
    requires var c := Consume(th, th.pending * th.call.value.events);
             th'.pending == c.pending && th'.ledger == c.ledger
    ensures Took(th, th')
  {
    assert th.pending - th'.pending == th.pending * th.call.value.events;
  }

  lemma SeizeTestTook(l: Local, executing: bool, f: Frame)
    requires ThreadOk(l) && FrameOk(f, l) && f.SeizeTest?
    ensures Took(l.th, After(l, executing, f).th)
  {
    hide Took;
    var th' := After(l, executing, f).th;
    if th'.ledger == l.th.ledger {
      TookNothing(l.th, th');
    } else {
      TookAll(l.th, th');
    }
  }

  lemma SurrenderTestTook(l: Local, executing: bool, f: Frame)
    requires ThreadOk(l) && FrameOk(f, l) && Placed(l, executing) && f.SurrenderTest?
    ensures Took(l.th, After(l, executing, f).th)
  {
    hide Took;
    var th' := After(l, executing, f).th;
    if th'.ledger == l.th.ledger && th'.pending == l.th.pending {
      TookNothing(l.th, th');
    } else {
      TookAll(l.th, th');
    }
  }

  lemma SectionMoves(l: Local, executing: bool, f: Frame)
    requires ThreadOk(l) && FrameOk(f, l) && Placed(l, executing)
    ensures var th' := After(l, executing, f).th;
            if f.SendPost? then Sent(l.th, th', f.events) else Took(l.th, th')
  {
    if f.SeizeTest? {
      SeizeTestTook(l, executing, f);
    } else if f.SurrenderTest? {
      SurrenderTestTook(l, executing, f);
    } else if !f.SendPost? {
      hide Section, ThreadOk, FrameOk, Took;
      OtherAccounts(l, executing, f);
      TookNothing(l.th, After(l, executing, f).th);
    }
  }

  /**
    A send adds its events to the pending set of its thread and records those that were
    not pending; what leaves a pending set is all of it that its thread has asked for, and
    is recorded as seized.
   */
  lemma PendingMoves(s: State, action: Action, t: nat)
    requires Inv(s) && Enabled(s, action) && t < |s.threads|
    ensures var th, th' := s.threads[t], Next(s, action).threads[t];
            if action.RunSection? && Top(s).SendPost? && Top(s).thread == t then Sent(th, th', Top(s).events)
            else Took(th, th')
  {
    hide Section, ThreadOk, FrameOk, NeedsWakeup, HasPosted, HasRemover, Sent, Took;
    var th' := Next(s, action).threads[t];
    if action.RunSection? && Top(s).thread == t {
      SectionFrame(s);
      assert FrameInv(s, |s.frames| - 1) && ThreadInv(s, Top(s).thread);
      SectionMoves(LocalOf(s, Top(s).thread), Top(s).thread == s.executing, Top(s));
    } else {
      TookNothing(s.threads[t], th');
    }
  }

  /**
    A send that has posted its events takes what its thread waits for exactly when that
    meets the condition and the thread sleeps or is in its window and not served yet, even
    if a timeout was recorded there.
   */
  lemma SendServesIff(s: State)
    requires Reachable(s) && s.frames != [] && Top(s).SurrenderTest?
    ensures WellFormed(s)
    ensures var t := Top(s).thread;
            var th, th' := s.threads[t], Next(s, RunSection).threads[t];
            var serves := && Satisfies(th.pending, th.waitCount, th.waitOption)
                          && (th.waiting || (InWindow(LocalOf(s, t)) && s.sync != Satisfied));
            && (serves ==> th'.pending == th.pending - th.waitCount && th'.out == Some(th.pending * th.waitCount))
            && (!serves ==> th' == th)
  {
    ReachableInv(s);
    assert FrameInv(s, |s.frames| - 1) && ThreadInv(s, Top(s).thread);
    SurrenderServes(LocalOf(s, Top(s).thread), Top(s).thread == s.executing, Top(s));
    hide Section, ThreadOk, FrameOk, NeedsWakeup, HasPosted, HasRemover;
  }

  lemma SurrenderServes(l: Local, executing: bool, f: Frame)
    requires ThreadOk(l) && FrameOk(f, l) && Placed(l, executing) && f.SurrenderTest?
    ensures var th, th' := l.th, Section(l.th, l.sync, executing, f).thread;
            var serves := && Satisfies(th.pending, th.waitCount, th.waitOption)
                          && (th.waiting || (InWindow(l) && l.sync != Satisfied));
            && (serves ==> th'.pending == th.pending - th.waitCount && th'.out == Some(th.pending * th.waitCount))
            && (!serves ==> th' == th)
  {
  }

  // ------------------------------------------------------- synchronization

  /** Who may move the synchronization state, and where to. */
  predicate SyncMove(s: State, action: Action, s': State) {
    || s'.sync == s.sync
    || (s.frames != [] && action.RunSection? && Top(s).thread == s.executing &&
        match Top(s)
        case SeizeTest(_, _) => s.sync == Synchronized && s'.sync == NothingHappened
        case SeizeResolve(_) => |s.frames| == 1 && s'.sync == Synchronized
        case SurrenderTest(_, _) => (s.sync == NothingHappened || s.sync == Timeout) && s'.sync == Satisfied
        case TimeoutMark(_) => s.sync != Synchronized && s'.sync == Timeout
        case _ => false)
  }

  /**
    Only a seize opens the window and only the same seize closes it; in between a send
    moves the state to SATISFIED and a timeout to TIMEOUT, both for the window's owner.
    At most one window is open: that of the executing thread.
   */
  lemma SyncDiscipline(s: State, action: Action)
    requires Reachable(s) && WellFormed(s) && Enabled(s, action)
    ensures SyncMove(s, action, Next(s, action))
    ensures s.sync != Synchronized <==> InWindow(LocalOf(s, s.executing))
    ensures forall t :: 0 <= t < |s.threads| && InWindow(LocalOf(s, t)) ==> t == s.executing
  {
    ReachableInv(s);
    assert ThreadInv(s, s.executing);
    forall t | 0 <= t < |s.threads| && InWindow(LocalOf(s, t))
      ensures t == s.executing
    {
      assert ThreadInv(s, t);
    }
    if action.RunSection? {
      assert FrameInv(s, |s.frames| - 1) && ThreadInv(s, Top(s).thread);
    }
  }

  // ---------------------------------------------------------------- verdicts

  /** A timeout has been decided on for the receive in progress. */
  predicate TimeoutDue(l: Local) {
    l.th.code == TimedOut || (InWindow(l) && l.sync == Timeout)
  }

  /** What the history of a receive says about the status it will return. */
  predicate VerdictOk(l: Local) {
    l.th.call.Some? ==>
      && (l.th.verdict.crossed <==> l.th.out.Some? && TimeoutDue(l))
      && (l.th.verdict.satisfied ==>
            if InWindow(l) then l.sync == if l.th.verdict.overruled then Timeout else Satisfied
            else
              && l.th.code == (if l.th.verdict.overruled then TimedOut else Successful)
              && l.th.timer != Active
              && (if l.own.None? then !l.th.waiting else !l.own.value.SeizeTest?))
  }

  /** No timeout is under way for a receive whose recorded SATISFIED has left the window. */
  predicate VerdictFrameOk(f: Frame, l: Local) {
    f.IsTimeout() && l.th.verdict.satisfied ==> InWindow(l)
  }

  lemma SeizeVerdict(l: Local, executing: bool, f: Frame)
    requires ThreadOk(l) && FrameOk(f, l) && Placed(l, executing) && VerdictOk(l) && f.IsSeize()
    ensures VerdictOk(After(l, executing, f))
  {
  }

  lemma TimeoutVerdict(l: Local, executing: bool, f: Frame)
    requires ThreadOk(l) && FrameOk(f, l) && Placed(l, executing) && VerdictOk(l) && VerdictFrameOk(f, l) && f.IsTimeout()
    ensures VerdictOk(After(l, executing, f))
    ensures var next := Section(l.th, l.sync, executing, f).next;
            next.Some? ==> VerdictFrameOk(next.value, After(l, executing, f))
  {
  }

  lemma SendVerdict(l: Local, executing: bool, f: Frame)
    requires ThreadOk(l) && FrameOk(f, l) && Placed(l, executing) && VerdictOk(l) && !f.IsSeize() && !f.IsTimeout()
    ensures VerdictOk(After(l, executing, f))
  {
  }

  lemma SectionVerdict(l: Local, executing: bool, f: Frame)
    requires ThreadOk(l) && FrameOk(f, l) && Placed(l, executing) && VerdictOk(l) && VerdictFrameOk(f, l)
    ensures VerdictOk(After(l, executing, f))
    ensures var next := Section(l.th, l.sync, executing, f).next;
            next.Some? ==> VerdictFrameOk(next.value, After(l, executing, f))
  {
    if f.IsTimeout() {
      hide Section, ThreadOk, FrameOk;
      TimeoutVerdict(l, executing, f);
    } else {
      hide VerdictOk, ThreadOk, FrameOk;
      if f.IsSeize() {
        SeizeVerdict(l, executing, f);
      } else {
        SendVerdict(l, executing, f);
      }
    }
  }

  lemma SectionVerdictFrame(l: Local, executing: bool, f: Frame, g: Frame)
    requires ThreadOk(l) && FrameOk(f, l) && Placed(l, executing) && VerdictOk(l) && VerdictFrameOk(f, l)
    requires FrameOk(g, l) && VerdictFrameOk(g, l) && !f.IsSeize()
    ensures VerdictFrameOk(g, After(l, executing, f))
  {
  }

  predicate Verdicts(s: State) {
    && Inv(s)
    && (forall t :: 0 <= t < |s.threads| ==> VerdictOk(LocalOf(s, t)))
    && (forall i :: 0 <= i < |s.frames| ==> VerdictFrameOk(s.frames[i], LocalOf(s, s.frames[i].thread)))
  }

  lemma SectionVerdictAt(s: State, i: nat)
    requires Verdicts(s) && s.frames != [] && i < |Next(s, RunSection).frames|
    ensures var s' := Next(s, RunSection);
            s'.frames[i].thread < |s'.threads| && VerdictFrameOk(s'.frames[i], LocalOf(s', s'.frames[i].thread))
  {
    hide Section, ThreadOk, NeedsWakeup, HasPosted, HasRemover;
    var top := |s.frames| - 1;
    var f := Top(s);
    var l := LocalOf(s, f.thread);
    SectionFrame(s);
    assert FrameInv(s, top) && ThreadInv(s, f.thread) && FrameInv(s, i);
    if i < top && s.frames[i].thread == f.thread {
      SectionVerdictFrame(l, f.thread == s.executing, f, s.frames[i]);
    } else if i < top {
      assert ThreadInv(s, s.frames[i].thread);
    } else {
      SectionVerdict(l, f.thread == s.executing, f);
      SectionNext(l, f.thread == s.executing, f);
    }
  }

  lemma SectionVerdicts(s: State)
    requires Verdicts(s) && s.frames != []
    ensures Verdicts(Next(s, RunSection))
  {
    hide Section, ThreadOk, FrameOk, NeedsWakeup, HasPosted, HasRemover;
    var s' := Next(s, RunSection);
    var f := Top(s);
    SectionPreserves(s);
    SectionFrame(s);
    assert FrameInv(s, |s.frames| - 1) && ThreadInv(s, f.thread);
    SectionVerdict(LocalOf(s, f.thread), f.thread == s.executing, f);
    forall t | 0 <= t < |s'.threads|
      ensures VerdictOk(LocalOf(s', t))
    {
      assert ThreadInv(s, t);
    }
    forall i | 0 <= i < |s'.frames|
      ensures VerdictFrameOk(s'.frames[i], LocalOf(s', s'.frames[i].thread))
    {
      SectionVerdictAt(s, i);
    }
  }

  lemma ActionVerdicts(s: State, action: Action)
    requires Verdicts(s) && Enabled(s, action) && !action.RunSection?
    ensures Verdicts(Next(s, action))
  {
    var s' := Next(s, action);
    ActionPreserves(s, action);
    ActionFrame(s, action);
    forall t | 0 <= t < |s'.threads|
      ensures VerdictOk(LocalOf(s', t))
    {
      assert ThreadInv(s, t);
    }
    forall i | 0 <= i < |s'.frames|
      ensures VerdictFrameOk(s'.frames[i], LocalOf(s', s'.frames[i].thread))
    {
      assert ThreadInv(s, s'.frames[i].thread);
      if i < |s.frames| {
        assert FrameInv(s, i);
      }
    }
  }

  lemma {:induction false} RunVerdicts(s: State, actions: seq<Action>)
    requires Verdicts(s) && CanRun(s, actions)
    ensures Verdicts(Run(s, actions))
    decreases |actions|
  {
    if actions != [] {
      if actions[0].RunSection? {
        SectionVerdicts(s);
      } else {
        ActionVerdicts(s, actions[0]);
      }
      RunVerdicts(Next(s, actions[0]), actions[1..]);
    }
  }

  lemma ReachableVerdicts(s: State)
    requires Reachable(s)
    ensures Verdicts(s)
  {
    var init, actions :| WellFormed(init) && Initial(init) && CanRun(init, actions) && s == Run(init, actions);
    RunVerdicts(init, actions);
  }

  /**
    A receive for which SATISFIED was recorded returns a timeout exactly when the
    assignment of an `_Event_Timeout` overruled the last such record, and successfully
    otherwise, in every run.
   */
  lemma SatisfiedVerdict(s: State)
    requires Reachable(s) && WellFormed(s) && Enabled(s, ReturnFromReceive) && Executing(s).verdict.satisfied
    ensures Executing(s).code == TimedOut <==> Executing(s).verdict.overruled
    ensures Executing(s).code == Successful <==> !Executing(s).verdict.overruled
  {
    ReachableVerdicts(s);
    assert VerdictOk(LocalOf(s, s.executing)) && ThreadInv(s, s.executing);
  }

  /**
    A receive returns a timeout although its events were consumed exactly when the two
    crossed: a timeout was decided on after events had been consumed, or a send to the
    sleeping thread consumed events after that, and no SATISFIED was recorded later.
   */
  lemma TimeoutConsumedIffCrossed(s: State)
    requires Reachable(s) && WellFormed(s) && Enabled(s, ReturnFromReceive)
    ensures Executing(s).code == TimedOut && Executing(s).out.Some? <==> Executing(s).verdict.crossed
  {
    ReachableVerdicts(s);
    assert VerdictOk(LocalOf(s, s.executing)) && ThreadInv(s, s.executing);
  }

  /** A send records SATISFIED for `t`, the executing thread in its window. */
  predicate RecordsSatisfied(s: State, action: Action, t: nat)
    requires WellFormed(s) && Enabled(s, action)
  {
    && action.RunSection? && Top(s).SurrenderTest? && Top(s).thread == t
    && s.sync != Satisfied && Next(s, action).sync == Satisfied
  }

  /** A send to the sleeping thread `t` consumes what it waits for. */
  predicate ServesSleeper(s: State, action: Action, t: nat)
    requires WellFormed(s) && Enabled(s, action) && t < |s.threads|
  {
    && action.RunSection? && Top(s).SurrenderTest? && Top(s).thread == t
    && s.threads[t].waiting && Satisfies(s.threads[t].pending, s.threads[t].waitCount, s.threads[t].waitOption)
  }

  /** The section of `_Event_Timeout` that decides on a timeout for `t`. */
  predicate DecidesTimeout(s: State, action: Action, t: nat)
    requires WellFormed(s) && Enabled(s, action) && t < |s.threads|
  {
    action.RunSection? && (Top(s) == TimeoutMark(t) || (Top(s) == TimeoutCheck(t) && !InWindow(LocalOf(s, t))))
  }

  lemma SectionHistory(l: Local, executing: bool, f: Frame)
    requires ThreadOk(l) && FrameOk(f, l) && Placed(l, executing) && VerdictOk(l)
    ensures var l' := After(l, executing, f);
            var records := f.SurrenderTest? && l.sync != Satisfied && l'.sync == Satisfied;
            var serves := f.SurrenderTest? && l.th.waiting && Satisfies(l.th.pending, l.th.waitCount, l.th.waitOption);
            var decides := f.TimeoutMark? || (f.TimeoutCheck? && !InWindow(l));
            && (if l.th.verdict.overruled then l'.th.verdict.overruled || records
                else l'.th.verdict.overruled <==> f.TimeoutMark? && l.sync == Satisfied)
            && (if l.th.verdict.crossed then l'.th.verdict.crossed || records
                else l'.th.verdict.crossed <==> (decides && l.th.out.Some?) || (serves && TimeoutDue(l)))
  {
  }

  /**
    What the two bits record.  `overruled` is set exactly by the assignment of a timeout
    that meets SATISFIED; `crossed` exactly by a timeout decided on after a consumption and
    by a consumption for the sleeping thread after that; the next record of SATISFIED or
    the next receive clears them.
   */
  lemma HistoryMoves(s: State, action: Action, t: nat)
    requires Reachable(s) && WellFormed(s) && Enabled(s, action) && t < |s.threads|
    ensures var th, th' := s.threads[t], Next(s, action).threads[t];
            var cleared := (action.CallReceive? && t == s.executing) || RecordsSatisfied(s, action, t);
            && (if th.verdict.overruled then th'.verdict.overruled || cleared
                else th'.verdict.overruled <==> action.RunSection? && Top(s) == TimeoutMark(t) && s.sync == Satisfied)
            && (if th.verdict.crossed then th'.verdict.crossed || cleared
                else th'.verdict.crossed <==>
                       || (DecidesTimeout(s, action, t) && th.out.Some?)
                       || (ServesSleeper(s, action, t) && TimeoutDue(LocalOf(s, t))))
  {
    ReachableVerdicts(s);
    if action.RunSection? {
      SectionHistoryAt(s, t);
    } else {
      hide Section, ThreadOk, FrameOk, VerdictOk, Satisfies, Verdicts;
    }
  }

  lemma SectionHistoryAt(s: State, t: nat)
    requires Verdicts(s) && s.frames != [] && t < |s.threads|
    ensures var th, th' := s.threads[t], Next(s, RunSection).threads[t];
            var cleared := RecordsSatisfied(s, RunSection, t);
            && (if th.verdict.overruled then th'.verdict.overruled || cleared
                else th'.verdict.overruled <==> Top(s) == TimeoutMark(t) && s.sync == Satisfied)
            && (if th.verdict.crossed then th'.verdict.crossed || cleared
                else th'.verdict.crossed <==>
                       || (DecidesTimeout(s, RunSection, t) && th.out.Some?)
                       || (ServesSleeper(s, RunSection, t) && TimeoutDue(LocalOf(s, t))))
  {
    assert ThreadInv(s, t) && VerdictOk(LocalOf(s, t));
    hide Section, ThreadOk, FrameOk, VerdictOk, NeedsWakeup, HasPosted, HasRemover, Satisfies, TimeoutDue;
    SectionFrame(s);
    assert FrameInv(s, |s.frames| - 1) && ThreadInv(s, Top(s).thread);
    SectionHistory(LocalOf(s, Top(s).thread), Top(s).thread == s.executing, Top(s));
  }

  /** Nothing but such an assignment takes the state from SATISFIED before the window closes. */
  lemma OverruledExactly(s: State, action: Action)
    requires Reachable(s) && WellFormed(s) && Enabled(s, action) && s.sync == Satisfied
    ensures Next(s, action).sync == Timeout <==> action.RunSection? && Top(s).TimeoutMark?
    ensures Next(s, action).sync != NothingHappened
  {
    SyncDiscipline(s, action);
  }
}

/**
  Reachable states of the event manager that mark where its promises end: each one
  bounds a theorem of EventTheorems.
 */
module EventExamples {
  import opened Basics
  import opened EventManager
  import opened EventTheorems

  /** A system with one thread is in this state after some run. */
  ghost predicate Reached(sync: SyncState, th: Thread, frames: seq<Frame>) {
    && (forall i :: 0 <= i < |frames| ==> frames[i].thread == 0)
    && Reachable(State(sync, 0, [th], frames))
  }

  lemma Advance(sync: SyncState, th: Thread, below: seq<Frame>, f: Frame, e: Effect)
    requires Reached(sync, th, below + [f]) && e == Section(th, sync, true, f)
    ensures Reached(e.sync, e.thread, if e.next.Some? then below + [e.next.value] else below)
  {
    var s := State(sync, 0, [th], below + [f]);
    assert s.frames[|below|] == f;
    ReachableNext(s, RunSection);
    assert s.frames[..|s.frames| - 1] == below;
    assert [th][0 := e.thread] == [e.thread];
    assert forall i :: 0 <= i < |below| ==> s.frames[i] == below[i];
  }

  lemma Interrupt(sync: SyncState, th: Thread, frames: seq<Frame>, events: EventSet)
    requires Reached(sync, th, frames)
    ensures Reached(sync, th, frames + [SendPost(0, events)])
  {
    ReachableNext(State(sync, 0, [th], frames), CallSend(0, events));
  }

  lemma Expire(sync: SyncState, th: Thread, frames: seq<Frame>)
    requires Reached(sync, th, frames) && th.timer == Active
    ensures Reached(sync, th.(timer := Inactive), frames + [TimeoutCheck(0)])
  {
    ReachableNext(State(sync, 0, [th], frames), TimerExpires(0));
    assert [th][0 := th.(timer := Inactive)] == [th.(timer := Inactive)];
  }

  const ASKED := Request({0}, Options(true, false), 5)

  const ASKING := IDLE_THREAD.(call := Some(ASKED), waitOption := ASKED.options, waitCount := {0})

  /** The thread has called receive for event 0 and opened its blocking window. */
  lemma OpenWindow()
    ensures Reached(NothingHappened, ASKING, [SeizeTimer(0, 5)])
  {
    var s := State(Synchronized, 0, [IDLE_THREAD], []);
    assert CanRun(s, []) && Run(s, []) == s && Reachable(s);
    ReachableNext(s, CallReceive(ASKED));
    var th := IDLE_THREAD.(call := Some(ASKED));
    assert [IDLE_THREAD][0 := th] == [th];
    assert [] + [SeizeTest(0, ASKED)] == [SeizeTest(0, ASKED)];
    Advance(Synchronized, th, [], SeizeTest(0, ASKED), Section(th, Synchronized, true, SeizeTest(0, ASKED)));
    assert [] + [SeizeTimer(0, 5)] == [SeizeTimer(0, 5)];
  }

  function Sent(th: Thread): Thread {
    th.(pending := th.pending + {0}, ledger := Posted(th.ledger, {0} - th.pending))
  }

  /** A whole send of event 0, with its test of the receiver as the next section. */
  lemma SendEvent(sync: SyncState, th: Thread, frames: seq<Frame>)
    requires Reached(sync, th, frames)
    ensures var e := SurrenderTestSection(Sent(th), sync, true, 0, th.waitOption);
            Reached(e.sync, e.thread, if e.next.Some? then frames + [e.next.value] else frames)
  {
    hide Reached;
    Interrupt(sync, th, frames, {0});
    Advance(sync, th, frames, SendPost(0, {0}), Effect(Sent(th), sync, Some(SurrenderRead(0))));
    Advance(sync, Sent(th), frames, SurrenderRead(0), Effect(Sent(th), sync, Some(SurrenderTest(0, th.waitOption))));
    var e := SurrenderTestSection(Sent(th), sync, true, 0, th.waitOption);
    Advance(sync, Sent(th), frames, SurrenderTest(0, th.waitOption), e);
  }

  /** Runs the last frame of a stack written as a sequence display. */
  lemma Last1(sync: SyncState, th: Thread, f: Frame, e: Effect)
    requires Reached(sync, th, [f]) && e == Section(th, sync, true, f)
    ensures Reached(e.sync, e.thread, if e.next.Some? then [e.next.value] else [])
  {
    assert [] + [f] == [f];
    Advance(sync, th, [], f, e);
    assert e.next.Some? ==> [] + [e.next.value] == [e.next.value];
  }

  /**
    SYNCHRONIZED does not exclude a sleeping thread whose condition is met: two sends
    inside the window leave one, until `_Event_Seize` readies it again.
   */
  lemma SynchronizedButUnserved() returns (th: Thread, f: Frame)
    ensures Reached(Synchronized, th, [f]) && !f.IsPosted()
    ensures th.waiting && Satisfies(th.pending, th.waitCount, th.waitOption)
  {
    hide Reached;
    OpenWindow();
    var w := [SeizeTimer(0, 5)];
    assert 0 in Sent(ASKING).pending * {0};
    SendEvent(NothingHappened, ASKING, w);
    var th1 := SurrenderTestSection(Sent(ASKING), NothingHappened, true, 0, ASKED.options).thread;
    SendEvent(Satisfied, th1, w);
    var th2 := Sent(th1);
    Last1(Satisfied, th2, SeizeTimer(0, 5), Effect(th2.(timer := Active), Satisfied, Some(SeizeBlock(0))));
    var th3 := th2.(timer := Active);
    Last1(Satisfied, th3, SeizeBlock(0), Effect(th3.(waiting := true), Satisfied, Some(SeizeResolve(0))));
    var th4 := th3.(waiting := true);
    Last1(Satisfied, th4, SeizeResolve(0), SeizeResolveSection(th4, Satisfied, 0));
    th, f := th4.(timer := RemoveIt), SeizeRemove(0);
    assert 0 in th.pending * th.waitCount;
  }

  /** The receiver sleeps on event 0 and a send has taken the event for it. */
  lemma ConsumedAtFlash() returns (th: Thread)
    ensures Reached(NothingHappened, th, [SeizeResolve(0)] + [SurrenderFlash(0)])
    ensures th == Consume(Sent(ASKING.(timer := Active, waiting := true)), {0})
  {
    hide Reached;
    OpenWindow();
    var armed := ASKING.(timer := Active);
    Last1(NothingHappened, ASKING, SeizeTimer(0, 5), Effect(armed, NothingHappened, Some(SeizeBlock(0))));
    var asleep := armed.(waiting := true);
    Last1(NothingHappened, armed, SeizeBlock(0), Effect(asleep, NothingHappened, Some(SeizeResolve(0))));
    SendEvent(NothingHappened, asleep, [SeizeResolve(0)]);
    assert Sent(asleep).pending * {0} == {0};
    th := Consume(Sent(asleep), {0});
  }

  /** The timer has expired at the flash of that send. */
  lemma ExpiredAtFlash() returns (th: Thread)
    ensures Reached(Timeout, th, [SeizeResolve(0)] + [SurrenderFlash(0)])
    ensures th == Consume(Sent(ASKING.(timer := Active, waiting := true)), {0}).(
                    timer := Inactive, verdict := Verdict(false, false, true))
  {
    hide Reached;
    var served := ConsumedAtFlash();
    var frames := [SeizeResolve(0)] + [SurrenderFlash(0)];
    Expire(NothingHappened, served, frames);
    var th1 := served.(timer := Inactive);
    Advance(NothingHappened, th1, frames, TimeoutCheck(0), Effect(th1, NothingHappened, Some(TimeoutMark(0))));
    th := Crossing(th1, true);
    Advance(NothingHappened, th1, frames, TimeoutMark(0), Effect(th, Timeout, None));
  }

  /**
    A timer that expires at the flash of `_Event_Surrender`: the receive returns a
    timeout although its events were taken and are in its output variable.
   */
  lemma TimeoutAfterConsumption() returns (th: Thread)
    ensures Reached(Synchronized, th, []) && th.call.Some? && !th.waiting
    ensures th.code == TimedOut && th.out == Some({0}) && th.pending == {}
  {
    hide Reached;
    var w := [SeizeResolve(0)];
    var late := ExpiredAtFlash();
    Advance(Timeout, late, w, SurrenderFlash(0), Effect(late, Timeout, Some(SurrenderUnblock(0))));
    var th2 := late.(waiting := false);
    Advance(Timeout, late, w, SurrenderUnblock(0), Effect(th2, Timeout, None));
    th := th2.(code := TimedOut);
    Last1(Timeout, th2, SeizeResolve(0), Effect(th, Synchronized, Some(SeizeUnblock(0))));
    Last1(Synchronized, th, SeizeUnblock(0), Effect(th, Synchronized, None));
  }

  /** A send runs while `_Event_Timeout` is between its test and its assignment. */
  lemma SatisfiedDuringTimeout() returns (th: Thread)
    ensures th == Recorded(Consume(Sent(ASKING), {0}))
    ensures Reached(Satisfied, th, [SeizeBlock(0)] + [TimeoutMark(0)])
  {
    hide Reached;
    OpenWindow();
    var armed := ASKING.(timer := Active);
    Last1(NothingHappened, ASKING, SeizeTimer(0, 5), Effect(armed, NothingHappened, Some(SeizeBlock(0))));
    var w := [SeizeBlock(0)];
    Expire(NothingHappened, armed, w);
    assert armed.(timer := Inactive) == ASKING;
    Advance(NothingHappened, ASKING, w, TimeoutCheck(0), Effect(ASKING, NothingHappened, Some(TimeoutMark(0))));
    SendEvent(NothingHappened, ASKING, w + [TimeoutMark(0)]);
    assert Sent(ASKING).pending * {0} == {0};
    th := Recorded(Consume(Sent(ASKING), {0}));
  }

  /**
    A send that preempts `_Event_Timeout` between its test and its assignment: SATISFIED
    is recorded and then overwritten, and the receive returns a timeout.
   */
  lemma PreemptedTimeoutOverrules() returns (th: Thread)
    ensures Reached(Synchronized, th, []) && th.call.Some? && !th.waiting
    ensures th.verdict.satisfied && th.code == TimedOut
  {
    hide Reached;
    var th1 := SatisfiedDuringTimeout();
    var late := th1.(verdict := Verdict(true, true, true));
    Advance(Satisfied, th1, [SeizeBlock(0)], TimeoutMark(0), Effect(late, Timeout, None));
    var th2 := late.(waiting := true);
    Last1(Timeout, late, SeizeBlock(0), Effect(th2, Timeout, Some(SeizeResolve(0))));
    var th3 := th2.(code := TimedOut);
    Last1(Timeout, th2, SeizeResolve(0), Effect(th3, Synchronized, Some(SeizeUnblock(0))));
    th := th3.(waiting := false);
    Last1(Synchronized, th3, SeizeUnblock(0), Effect(th, Synchronized, None));
  }
}

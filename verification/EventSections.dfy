/**
  The atomic sections of the event manager as assignments to the thread control blocks
  and the global synchronization state, each proved against the section it implements.
 */
module EventSections {
  import opened Basics
  import opened EventManager
  import opened EventTheorems

  class Manager {
    var sync: SyncState
    var executing: nat
    const threads: array<Thread>

    /** `_Event_Manager_initialization`, with `count` threads created and none waiting. */
    constructor (count: nat)
      ensures fresh(threads)
      ensures View([]) == State(Synchronized, 0, seq(count, i => IDLE_THREAD), [])
    {
      sync := Synchronized;
      executing := 0;
      threads := new Thread[count](i => IDLE_THREAD);
    }

    /** The abstract state while the operations `frames` are in progress. */
    function View(frames: seq<Frame>): State
      reads this, threads
    {
      State(sync, executing, threads[..], frames)
    }

    /**
      `rtems_event_receive` with an empty event set: it reports the events that were posted
      to the thread and not yet seized, and seizes none.
     */
    method ReceiveCurrent(ghost frames: seq<Frame>) returns (events: EventSet, status: Status)
      requires Reachable(View(frames)) && executing < threads.Length
      ensures status == Successful
      ensures forall bit: EventBit :: bit in events <==>
                threads[executing].ledger.posted[bit] > threads[executing].ledger.seized[bit]
    {
      forall bit: EventBit
        ensures bit in threads[executing].pending <==>
                  threads[executing].ledger.posted[bit] > threads[executing].ledger.seized[bit]
      {
        EventsConserved(View(frames), executing, bit);
      }
      events := threads[executing].pending;
      status := Successful;
    }

    method Post(t: nat, events: EventSet) returns (next: Option<Frame>)
      requires t < threads.Length
      modifies threads
      ensures Effect(threads[t], sync, next) == Section(old(threads[t]), sync, t == executing, SendPost(t, events))
      ensures threads[..] == old(threads[..])[t := threads[t]]
    {
      var clear := events - threads[t].pending;
      threads[t] := threads[t].(pending := threads[t].pending + events, ledger := Posted(threads[t].ledger, clear));
      next := Some(SurrenderRead(t));
    }

    method SeizeTry(t: nat, request: Request) returns (next: Option<Frame>)
      requires t < threads.Length
      modifies this`sync, threads
      ensures Effect(threads[t], sync, next) == Section(old(threads[t]), old(sync), t == executing, SeizeTest(t, request))
      ensures threads[..] == old(threads[..])[t := threads[t]]
    {
      var pending := threads[t].pending;
      var seized := pending * request.events;
      next := None;
      if seized != {} && (seized == request.events || request.options.any) {
        threads[t] := Consume(threads[t], seized);
        return;
      }
      if request.options.noWait {
        threads[t] := threads[t].(code := Unsatisfied);
        threads[t] := threads[t].(out := Some(seized));
        return;
      }
      sync := NothingHappened;
      threads[t] := threads[t].(waitOption := request.options);
      threads[t] := threads[t].(waitCount := request.events);
      next := Some(SeizeTimer(t, request.ticks));
    }

    method SeizeFinish(t: nat) returns (next: Option<Frame>)
      requires t < threads.Length
      modifies this`sync, threads
      ensures Effect(threads[t], sync, next) == Section(old(threads[t]), old(sync), t == executing, SeizeResolve(t))
      ensures threads[..] == old(threads[..])[t := threads[t]]
    {
      var syncState := sync;
      sync := Synchronized;
      next := None;
      match syncState {
        case Synchronized =>
        case NothingHappened =>
        case Timeout =>
          threads[t] := threads[t].(code := TimedOut);
          next := Some(SeizeUnblock(t));
        case Satisfied =>
          if threads[t].timer == Active {
            threads[t] := threads[t].(timer := RemoveIt);
            next := Some(SeizeRemove(t));
          } else {
            next := Some(SeizeUnblock(t));
          }
      }
    }

    method Surrender(t: nat, option: Options) returns (next: Option<Frame>)
      requires t < threads.Length
      modifies this`sync, threads
      ensures Effect(threads[t], sync, next) == Section(old(threads[t]), old(sync), t == executing, SurrenderTest(t, option))
      ensures threads[..] == old(threads[..])[t := threads[t]]
    {
      var condition := threads[t].waitCount;
      var seized := threads[t].pending * condition;
      next := None;
      if seized != {} {
        if threads[t].waiting {
          if seized == condition || option.any {
            var crossed := threads[t].verdict.crossed || TimedOutAlready(threads[t], sync, t == executing);
            threads[t] := Crossing(Consume(threads[t], seized), crossed);
            next := Some(SurrenderFlash(t));
            return;
          }
        }
        match sync {
          case Synchronized =>
          case Satisfied =>
          case NothingHappened =>
            if t == executing {
              if seized == condition || option.any {
                threads[t] := Recorded(Consume(threads[t], seized));
                sync := Satisfied;
              }
            }
          case Timeout =>
            if t == executing {
              if seized == condition || option.any {
                threads[t] := Recorded(Consume(threads[t], seized));
                sync := Satisfied;
              }
            }
        }
      }
    }

    method CheckTimeout(t: nat) returns (next: Option<Frame>)
      requires t < threads.Length
      modifies threads
      ensures Effect(threads[t], sync, next) == Section(old(threads[t]), sync, t == executing, TimeoutCheck(t))
      ensures threads[..] == old(threads[..])[t := threads[t]]
    {
      next := None;
      if sync != Synchronized && t == executing {
        if sync != Satisfied {
          next := Some(TimeoutMark(t));
        }
      } else {
        threads[t] := Crossing(threads[t], threads[t].out.Some?).(code := TimedOut);
        next := Some(TimeoutUnblock(t));
      }
    }

    method SetTimer(t: nat, timer: Timer)
      requires t < threads.Length
      modifies threads
      ensures threads[..] == old(threads[..])[t := old(threads[t]).(timer := timer)]
    {
      threads[t] := threads[t].(timer := timer);
    }

    method SetWaiting(t: nat, waiting: bool)
      requires t < threads.Length
      modifies threads
      ensures threads[..] == old(threads[..])[t := old(threads[t]).(waiting := waiting)]
    {
      threads[t] := threads[t].(waiting := waiting);
    }

    /** Runs the section of the frame on top of the stack; the stack and the fields move as in `Next`. */
    method RunTop(ghost below: seq<Frame>, f: Frame) returns (next: Option<Frame>)
      requires WellFormed(View(below + [f]))
      modifies this`sync, threads
      ensures View(if next.Some? then below + [next.value] else below) == Next(old(View(below + [f])), RunSection)
    {
      var t := f.thread;
      assert f == (below + [f])[|below|] && (below + [f])[..|below|] == below;
      next := None;
      match f {
        case SeizeTest(_, request) =>
          next := SeizeTry(t, request);
        case SeizeTimer(_, ticks) =>
          if ticks != 0 {
            SetTimer(t, Active);
          }
          next := Some(SeizeBlock(t));
        case SeizeBlock(_) =>
          SetWaiting(t, true);
          next := Some(SeizeResolve(t));
        case SeizeResolve(_) =>
          next := SeizeFinish(t);
        case SeizeRemove(_) =>
          SetTimer(t, Inactive);
          next := Some(SeizeUnblock(t));
        case SeizeUnblock(_) =>
          SetWaiting(t, false);
        case SendPost(_, events) =>
          next := Post(t, events);
        case SurrenderRead(_) =>
          next := Some(SurrenderTest(t, threads[t].waitOption));
        case SurrenderTest(_, option) =>
          next := Surrender(t, option);
        case SurrenderFlash(_) =>
          if threads[t].timer != Active {
            next := Some(SurrenderUnblock(t));
          } else {
            SetTimer(t, RemoveIt);
            next := Some(SurrenderRemove(t));
          }
        case SurrenderRemove(_) =>
          SetTimer(t, Inactive);
          next := Some(SurrenderUnblock(t));
        case SurrenderUnblock(_) =>
          SetWaiting(t, false);
        case TimeoutCheck(_) =>
          next := CheckTimeout(t);
        case TimeoutMark(_) =>
          threads[t] := Marked(threads[t], sync);
          sync := Timeout;
        case TimeoutUnblock(_) =>
          SetWaiting(t, false);
      }
    }
  }
}

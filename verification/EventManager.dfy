/**
  The event manager as a system of atomic sections.

  One processor runs a stack of kernel operations: the bottom frame is the operation
  of the executing thread (or of the first interrupt), every frame above it belongs to
  an interrupt that arrived while the one below was between two atomic sections.  A
  section is the code between two changes of the interrupt level, so an interrupt can
  arrive before any section, and the processor is only given to another thread when
  the stack is empty.
 */
module EventManager {
  import opened Basics

  /** One bit of the 32-bit event mask. */
  type EventBit = bit: nat | bit < 32

  type EventSet = set<EventBit>

  datatype Options = Options(any: bool, noWait: bool)

  datatype SyncState = Synchronized | NothingHappened | Timeout | Satisfied

  datatype Status = Successful | Unsatisfied | TimedOut

  datatype Timer = Inactive | Active | RemoveIt

  /** What a receive was asked for; zero ticks is to wait for ever. */
  datatype Request = Request(events: EventSet, options: Options, ticks: nat)

  /**
    What became of a receive: whether SATISFIED was recorded for it, whether a timeout
    overruled that, and whether a timeout and a consumption crossed.
   */
  datatype Verdict = Verdict(satisfied: bool, overruled: bool, crossed: bool)

  /**
    The event bits that were posted (clear to set), seized, handed to a caller on return,
    and overwritten in an output variable.
   */
  datatype Ledger = Ledger(
    posted: multiset<EventBit>,
    seized: multiset<EventBit>,
    delivered: multiset<EventBit>,
    overwritten: multiset<EventBit>)

  /**
    The part of a thread control block the event manager works on.  `out` is the
    caller's output variable, `None` until the receive in progress writes it.  `call`, the
    receive in progress, `verdict` and `ledger` are history that no section reads.
   */
  datatype Thread = Thread(
    pending: EventSet,
    waitOption: Options,
    waitCount: EventSet,
    waiting: bool,
    code: Status,
    out: Option<EventSet>,
    timer: Timer,
    call: Option<Request>,
    verdict: Verdict,
    ledger: Ledger)

  /** The next atomic section of an operation in progress on `thread`. */
  datatype Frame =
    | SeizeTest(thread: nat, request: Request)
    | SeizeTimer(thread: nat, ticks: nat)
    | SeizeBlock(thread: nat)
    | SeizeResolve(thread: nat)
    | SeizeRemove(thread: nat)
    | SeizeUnblock(thread: nat)
    | SendPost(thread: nat, events: EventSet)
    | SurrenderRead(thread: nat)
    | SurrenderTest(thread: nat, option: Options)
    | SurrenderFlash(thread: nat)
    | SurrenderRemove(thread: nat)
    | SurrenderUnblock(thread: nat)
    | TimeoutCheck(thread: nat)
    | TimeoutMark(thread: nat)
    | TimeoutUnblock(thread: nat)
  {
    predicate IsSeize() {
      SeizeTest? || IsWindow() || SeizeRemove? || SeizeUnblock?
    }

    /** Between opening the blocking window and restoring SYNCHRONIZED. */
    predicate IsWindow() {
      SeizeTimer? || SeizeBlock? || SeizeResolve?
    }

    /** A send that has posted its events and not yet tested the receiver's condition. */
    predicate IsPosted() {
      SurrenderRead? || SurrenderTest?
    }

    /** A send that has consumed events and not yet readied the receiver. */
    predicate IsServing() {
      SurrenderFlash? || SurrenderRemove? || SurrenderUnblock?
    }

    predicate IsTimeout() {
      TimeoutCheck? || TimeoutMark? || TimeoutUnblock?
    }
  }

  datatype State = State(sync: SyncState, executing: nat, threads: seq<Thread>, frames: seq<Frame>)

  /** The receive condition: some requested event is pending, and all of them unless ANY was asked. */
  predicate Satisfies(pending: EventSet, condition: EventSet, options: Options) {
    var seized := pending * condition;
    seized != {} && (seized == condition || options.any)
  }

  /** The ledger after `events` are seized and written over `out`. */
  function Seized(ledger: Ledger, events: EventSet, out: Option<EventSet>): Ledger {
    ledger.(seized := ledger.seized + multiset(events),
            overwritten := ledger.overwritten + (if out.Some? then multiset(out.value) else multiset{}))
  }

  /** The ledger after events are posted that were not pending. */
  function Posted(ledger: Ledger, newly: EventSet): Ledger {
    ledger.(posted := ledger.posted + multiset(newly))
  }

  function Crossing(th: Thread, crossed: bool): Thread {
    th.(verdict := th.verdict.(crossed := crossed))
  }

  /** Clears `events` in the pending set and writes them to the output variable. */
  function Consume(th: Thread, events: EventSet): Thread {
    th.(pending := th.pending - events,
        out := Some(events),
        ledger := Seized(th.ledger, events, th.out))
  }

  /** What a section leaves: its thread, the synchronization state and the rest of the operation. */
  datatype Effect = Effect(thread: Thread, sync: SyncState, next: Option<Frame>)

  function SeizeTestSection(th: Thread, sync: SyncState, t: nat, request: Request): Effect {
    var seized := th.pending * request.events;
    if seized != {} && (seized == request.events || request.options.any) then
      Effect(Consume(th, seized), sync, None)
    else if request.options.noWait then
      Effect(th.(code := Unsatisfied, out := Some(seized)), sync, None)
    else
      Effect(th.(waitOption := request.options, waitCount := request.events),
             NothingHappened, Some(SeizeTimer(t, request.ticks)))
  }

  function SeizeResolveSection(th: Thread, sync: SyncState, t: nat): Effect {
    match sync
    case Synchronized => Effect(th, Synchronized, None)
    case NothingHappened => Effect(th, Synchronized, None)
    case Timeout => Effect(th.(code := TimedOut), Synchronized, Some(SeizeUnblock(t)))
    case Satisfied =>
      if th.timer == Active then
        Effect(th.(timer := RemoveIt), Synchronized, Some(SeizeRemove(t)))
      else
        Effect(th, Synchronized, Some(SeizeUnblock(t)))
  }

  /** A timeout has been decided on: in the status or, while the window is open, in the synchronization state. */
  predicate TimedOutAlready(th: Thread, sync: SyncState, executing: bool) {
    th.code == TimedOut || (executing && sync == Timeout)
  }

  /** SATISFIED is recorded, whatever timeout there was before. */
  function Recorded(th: Thread): Thread {
    th.(verdict := Verdict(true, false, false))
  }

  /** A timeout is assigned over the synchronization state `sync`. */
  function Marked(th: Thread, sync: SyncState): Thread {
    th.(verdict := th.verdict.(overruled := th.verdict.overruled || sync == Satisfied, crossed := th.out.Some?))
  }

  function SurrenderTestSection(th: Thread, sync: SyncState, executing: bool, t: nat, option: Options): Effect {
    var seized := th.pending * th.waitCount;
    var enough := seized == th.waitCount || option.any;
    if seized == {} then
      Effect(th, sync, None)
    else if th.waiting && enough then
      Effect(Crossing(Consume(th, seized), th.verdict.crossed || TimedOutAlready(th, sync, executing)),
             sync, Some(SurrenderFlash(t)))
    else if (sync == NothingHappened || sync == Timeout) && executing && enough then
      Effect(Recorded(Consume(th, seized)), Satisfied, None)
    else
      Effect(th, sync, None)
  }

  function TimeoutCheckSection(th: Thread, sync: SyncState, executing: bool, t: nat): Effect {
    if sync != Synchronized && executing then
      Effect(th, sync, if sync != Satisfied then Some(TimeoutMark(t)) else None)
    else
      Effect(Crossing(th, th.out.Some?).(code := TimedOut), sync, Some(TimeoutUnblock(t)))
  }

  /** One atomic section on the thread `th` of frame `f`, which may be the executing one. */
  function Section(th: Thread, sync: SyncState, executing: bool, f: Frame): Effect {
    var t := f.thread;
    match f
    case SeizeTest(_, request) => SeizeTestSection(th, sync, t, request)
    case SeizeTimer(_, ticks) =>
      Effect(if ticks != 0 then th.(timer := Active) else th, sync, Some(SeizeBlock(t)))
    case SeizeBlock(_) => Effect(th.(waiting := true), sync, Some(SeizeResolve(t)))
    case SeizeResolve(_) => SeizeResolveSection(th, sync, t)
    case SeizeRemove(_) => Effect(th.(timer := Inactive), sync, Some(SeizeUnblock(t)))
    case SeizeUnblock(_) => Effect(th.(waiting := false), sync, None)
    case SendPost(_, events) =>
      Effect(th.(pending := th.pending + events, ledger := Posted(th.ledger, events - th.pending)),
             sync, Some(SurrenderRead(t)))
    case SurrenderRead(_) => Effect(th, sync, Some(SurrenderTest(t, th.waitOption)))
    case SurrenderTest(_, option) => SurrenderTestSection(th, sync, executing, t, option)
    case SurrenderFlash(_) =>
      if th.timer == Active then
        Effect(th.(timer := RemoveIt), sync, Some(SurrenderRemove(t)))
      else
        Effect(th, sync, Some(SurrenderUnblock(t)))
    case SurrenderRemove(_) => Effect(th.(timer := Inactive), sync, Some(SurrenderUnblock(t)))
    case SurrenderUnblock(_) => Effect(th.(waiting := false), sync, None)
    case TimeoutCheck(_) => TimeoutCheckSection(th, sync, executing, t)
    case TimeoutMark(_) =>
      Effect(Marked(th, sync), Timeout, None)
    case TimeoutUnblock(_) => Effect(th.(waiting := false), sync, None)
  }

  /** What can happen next. */
  datatype Action =
    | CallReceive(request: Request)
    | CallSend(target: nat, events: EventSet)
    | TimerExpires(target: nat)
    | RunSection
    | Dispatch(target: nat)
    | ReturnFromReceive

  predicate WellFormed(s: State) {
    && s.executing < |s.threads|
    && forall i :: 0 <= i < |s.frames| ==> s.frames[i].thread < |s.threads|
  }

  function Top(s: State): Frame
    requires s.frames != []
  {
    s.frames[|s.frames| - 1]
  }

  function Executing(s: State): Thread
    requires WellFormed(s)
  {
    s.threads[s.executing]
  }

  predicate Enabled(s: State, action: Action)
    requires WellFormed(s)
  {
    match action
    case CallReceive(request) =>
      s.frames == [] && request.events != {} && !Executing(s).waiting && Executing(s).call.None?
    case CallSend(t, _) => t < |s.threads|
    case TimerExpires(t) => t < |s.threads| && s.threads[t].timer != Inactive
    case RunSection => s.frames != []
    case Dispatch(t) => s.frames == [] && t < |s.threads| && !s.threads[t].waiting
    case ReturnFromReceive => s.frames == [] && !Executing(s).waiting && Executing(s).call.Some?
  }

  /** The receive in progress ends: its status and output variable are the caller's. */
  function Return(th: Thread): Thread
    requires th.call.Some?
  {
    th.(call := None,
        ledger := th.ledger.(delivered := th.ledger.delivered +
          (if th.code != Unsatisfied && th.out.Some? then multiset(th.out.value) else multiset{})))
  }

  function Next(s: State, action: Action): (s': State)
    requires WellFormed(s) && Enabled(s, action)
    ensures WellFormed(s')
  {
    match action
    case CallReceive(request) =>
      var t := s.executing;
      var th := s.threads[t].(code := Successful, out := None, call := Some(request),
                                    verdict := Verdict(false, false, false));
      s.(threads := s.threads[t := th], frames := [SeizeTest(t, request)])
    case CallSend(t, events) => s.(frames := s.frames + [SendPost(t, events)])
    case TimerExpires(t) =>
      var th := s.threads[t];
      s.(threads := s.threads[t := th.(timer := Inactive)],
         frames := if th.timer == Active then s.frames + [TimeoutCheck(t)] else s.frames)
    case RunSection =>
      var f := Top(s);
      var e := Section(s.threads[f.thread], s.sync, f.thread == s.executing, f);
      var below := s.frames[..|s.frames| - 1];
      s.(threads := s.threads[f.thread := e.thread],
         sync := e.sync,
         frames := if e.next.Some? then below + [e.next.value] else below)
    case Dispatch(t) => s.(executing := t)
    case ReturnFromReceive =>
      s.(threads := s.threads[s.executing := Return(Executing(s))])
  }

  const IDLE_THREAD := Thread({}, Options(false, false), {}, false, Successful, None, Inactive, None,
                              Verdict(false, false, false), Ledger(multiset{}, multiset{}, multiset{}, multiset{}))

  predicate Initial(s: State) {
    && s.executing < |s.threads|
    && s.sync == Synchronized
    && s.frames == []
    && forall t :: 0 <= t < |s.threads| ==> s.threads[t] == IDLE_THREAD
  }

  /** `actions` can happen one after the other from `s`. */
  predicate CanRun(s: State, actions: seq<Action>)
    requires WellFormed(s)
    decreases |actions|
  {
    actions == [] || (Enabled(s, actions[0]) && CanRun(Next(s, actions[0]), actions[1..]))
  }

  function Run(s: State, actions: seq<Action>): (s': State)
    requires WellFormed(s) && CanRun(s, actions)
    ensures WellFormed(s')
    decreases |actions|
  {
    if actions == [] then s else Run(Next(s, actions[0]), actions[1..])
  }

  ghost predicate Reachable(s: State) {
    exists init, actions :: WellFormed(init) && Initial(init) && CanRun(init, actions) && s == Run(init, actions)
  }
}

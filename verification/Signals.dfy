/**
  POSIX signals: the pending and blocked sets, the siginfo chains, and the routines that
  post a signal to the process, clear one, and deliver it to a handler.
 */
module Signals {
  import opened Basics

  const SIGHUP := 1
  const SIGLASTNOTRT := 17
  const SIGRTMIN := 18
  const SIGRTMAX := 32

  type Signal = s: int | 1 <= s <= 32 witness 1

  type SignalSet = set<Signal>

  /** A node of the siginfo pool, by number. */
  type Node = nat

  /** The value that comes with a queued signal. */
  type Value = int

  /** An entry of the action table: SIG_IGN, SA_SIGINFO and the mask to block in the handler. */
  datatype Action = Action(ignored: bool, siginfo: bool, mask: SignalSet)

  type Vectors = Signal -> Action

  /**
    One call of a handler: for a signal of the process or of the thread, with its value if
    it has one, and the signals that are blocked meanwhile.
   */
  datatype Delivery = Delivery(signal: Signal, global: bool, value: Option<Value>, mask: SignalSet)

  /**
    The signal state of the process and of the thread that handles signals.  Node `n` of
    the pool holds `info[n]`; chain `s` of `queues` is the siginfo chain of signal `s`.
    `switchCount` is the process-wide request for the post-switch extension,
    `dispatchLevel` how often dispatching is disabled, `log` the handlers called so far.
   */
  datatype State = State(
    threadPending: SignalSet,
    blocked: SignalSet,
    processPending: SignalSet,
    switchCount: int,
    inactive: seq<Node>,
    queues: seq<seq<Node>>,
    info: seq<Value>,
    dispatchLevel: int,
    log: seq<Delivery>)

  predicate Valid(st: State) {
    && |st.queues| == SIGRTMAX + 1
    && (forall i :: 0 <= i < |st.inactive| ==> st.inactive[i] < |st.info|)
    && (forall s, i :: 0 <= s < |st.queues| && 0 <= i < |st.queues[s]| ==> st.queues[s][i] < |st.info|)
  }

  /** `_POSIX_signals_Set_process_signals` for one signal. */
  function SetProcess(st: State, s: Signal): State {
    st.(processPending := st.processPending + {s},
        switchCount := if st.processPending == {} then st.switchCount + 1 else st.switchCount)
  }

  /** `_POSIX_signals_Clear_process_signals` for one signal. */
  function ClearProcess(st: State, s: Signal): State {
    st.(processPending := st.processPending - {s},
        switchCount := if st.processPending - {s} == {} then st.switchCount - 1 else st.switchCount)
  }

  /**
    The end of `killinfo`: the signal becomes pending and, with SA_SIGINFO, takes a node if
    there is one; otherwise the call fails, with dispatching still disabled.
   */
  function Post(v: Vectors, st: State, s: Signal, value: Value): (r: (State, bool))
    requires Valid(st)
    ensures Valid(r.0)
  {
    var st1 := SetProcess(st, s);
    if v(s).siginfo && st1.inactive == [] then (st1, false)
    else if v(s).siginfo then
      var node := st1.inactive[0];
      (st1.(inactive := st1.inactive[1..],
            info := st1.info[node := value],
            queues := st1.queues[s := st1.queues[s] + [node]],
            dispatchLevel := st1.dispatchLevel - 1), true)
    else (st1.(dispatchLevel := st1.dispatchLevel - 1), true)
  }

  /** What `_POSIX_signals_Clear_signals` leaves, and whether it found the signal. */
  datatype Cleared = Cleared(state: State, found: bool, value: Option<Value>)

  /** The SA_SIGINFO case: the oldest node goes back to the pool, and the bit with the last one. */
  function ClearSiginfo(st: State, s: Signal): (c: Cleared)
    requires Valid(st)
    ensures Valid(c.state)
  {
    if st.queues[s] == [] then Cleared(ClearProcess(st, s), true, None)
    else
      var node := st.queues[s][0];
      var rest := st.queues[s][1..];
      var st1 := st.(queues := st.queues[s := rest], inactive := st.inactive + [node]);
      Cleared(if rest == [] then ClearProcess(st1, s) else st1, true, Some(st.info[node]))
  }

  /** `_POSIX_signals_Clear_signals` */
  function Clear(v: Vectors, st: State, s: Signal, global: bool, checkBlocked: bool): (c: Cleared)
    requires Valid(st)
    ensures Valid(c.state)
  {
    if checkBlocked && s in st.blocked then Cleared(st, false, None)
    else if global then
      if s !in st.processPending then Cleared(st, false, None)
      else if v(s).siginfo then ClearSiginfo(st, s)
      else Cleared(ClearProcess(st, s), true, None)
    else
      if s !in st.threadPending then Cleared(st, false, None)
      else Cleared(st.(threadPending := st.threadPending - {s}), true, None)
  }

  /** What `_POSIX_signals_Check_signal` leaves, and whether a handler was called. */
  datatype Checked = Checked(state: State, handled: bool)

  /** `_POSIX_signals_Check_signal`; the blocked mask after the handler is the one before it. */
  function Check(v: Vectors, st: State, s: Signal, global: bool): (c: Checked)
    requires Valid(st)
    ensures Valid(c.state)
  {
    var c := Clear(v, st, s, global, true);
    if !c.found || v(s).ignored then Checked(c.state, false)
    else Checked(c.state.(log := c.state.log + [Delivery(s, global, c.value, st.blocked + v(s).mask)]), true)
  }

  /** `_POSIX_signals_Get_highest`: the lowest real-time signal, or else the lowest of the others. */
  method GetHighest(pending: SignalSet) returns (signo: int)
    ensures signo == 0 <==> pending == {}
    ensures signo != 0 ==> signo in pending && forall s :: s in pending ==> Before(signo, s) || s == signo
  {
    signo := SIGRTMIN;
    while signo <= SIGRTMAX
      invariant SIGRTMIN <= signo <= SIGRTMAX + 1
      invariant forall s :: s in pending ==> !(SIGRTMIN <= s < signo)
    {
      if signo in pending {
        return;
      }
      signo := signo + 1;
    }
    signo := SIGHUP;
    while signo <= SIGLASTNOTRT
      invariant SIGHUP <= signo <= SIGLASTNOTRT + 1
      invariant forall s :: s in pending ==> !(SIGHUP <= s < signo)
    {
      if signo in pending {
        return;
      }
      signo := signo + 1;
    }
    signo := 0;
  }

  /** Delivery order: real-time signals first, each group by number. */
  predicate Before(a: int, b: int) {
    if a >= SIGRTMIN then b < SIGRTMIN || a < b else b < SIGRTMIN && a < b
  }

  // --------------------------------------------------------- the routines themselves

  class Manager {
    const vectors: Vectors
    /** The blocked mask that each handler leaves behind. */
    const leaves: Signal -> SignalSet
    var threadPending: SignalSet
    var blocked: SignalSet
    var processPending: SignalSet
    var switchCount: int
    var inactive: seq<Node>
    var queues: seq<seq<Node>>
    var info: seq<Value>
    var dispatchLevel: int
    ghost var log: seq<Delivery>

    /** `_POSIX_signals_Manager_Initialization` */
    constructor (v: Vectors, h: Signal -> SignalSet, maximumQueuedSignals: nat)
      ensures vectors == v && leaves == h
      ensures View() == InitialState(maximumQueuedSignals)
    {
      vectors := v;
      leaves := h;
      threadPending, blocked, processPending, switchCount := {}, {}, {}, 0;
      inactive := seq(maximumQueuedSignals, i => i);
      queues := seq(SIGRTMAX + 1, i => []);
      info := seq(maximumQueuedSignals, i => 0);
      dispatchLevel := 0;
      log := [];
    }

    ghost function View(): State
      reads this
    {
      State(threadPending, blocked, processPending, switchCount, inactive, queues, info, dispatchLevel, log)
    }

    method SetProcessSignals(s: Signal)
      modifies this`processPending, this`switchCount
      ensures View() == SetProcess(old(View()), s)
    {
      if processPending == {} {
        switchCount := switchCount + 1;
      }
      processPending := processPending + {s};
    }

    method ClearProcessSignals(s: Signal)
      modifies this`processPending, this`switchCount
      ensures View() == ClearProcess(old(View()), s)
    {
      processPending := processPending - {s};
      if processPending == {} {
        switchCount := switchCount - 1;
      }
    }

    method PostProcessSignal(s: Signal, value: Value) returns (ok: bool)
      requires Valid(View())
      modifies this
      ensures (View(), ok) == Post(vectors, old(View()), s, value)
    {
      SetProcessSignals(s);
      if vectors(s).siginfo {
        if inactive == [] {
          return false;
        }
        var node := inactive[0];
        inactive := inactive[1..];
        info := info[node := value];
        queues := queues[s := queues[s] + [node]];
      }
      dispatchLevel := dispatchLevel - 1;
      ok := true;
    }

    method ClearSignals(s: Signal, global: bool, checkBlocked: bool) returns (found: bool, value: Option<Value>)
      requires Valid(View())
      modifies this
      ensures Cleared(View(), found, value) == Clear(vectors, old(View()), s, global, checkBlocked)
    {
      found, value := false, None;
      var unblocked := if checkBlocked then s !in blocked else true;
      if global {
        if s in processPending && unblocked {
          if vectors(s).siginfo {
            var node := None;
            if queues[s] != [] {
              node := Some(queues[s][0]);
              queues := queues[s := queues[s][1..]];
            }
            if queues[s] == [] {
              ClearProcessSignals(s);
            }
            if node.Some? {
              value := Some(info[node.value]);
              inactive := inactive + [node.value];
            }
          } else {
            ClearProcessSignals(s);
          }
          found := true;
        }
      } else {
        if s in threadPending && unblocked {
          threadPending := threadPending - {s};
          found := true;
        }
      }
    }

    method CheckSignal(s: Signal, global: bool) returns (handled: bool)
      requires Valid(View())
      modifies this
      ensures Checked(View(), handled) == Check(vectors, old(View()), s, global)
    {
      var found, value := ClearSignals(s, global, true);
      if !found {
        return false;
      }
      if vectors(s).ignored {
        return false;
      }
      var saved := blocked;
      blocked := blocked + vectors(s).mask;
      log := log + [Delivery(s, global, value, blocked)];
      blocked := leaves(s);
      blocked := saved;
      handled := true;
    }
  }

  function InitialState(maximumQueuedSignals: nat): State {
    State({}, {}, {}, 0, seq(maximumQueuedSignals, i => i), seq(SIGRTMAX + 1, i => []),
          seq(maximumQueuedSignals, i => 0), 0, [])
  }
}

/**
  The delivery loop with its restarts: with a fixed action table and handlers that post
  nothing, it calls exactly the handlers that the state asks for, in order, and returns.
 */
module SignalDelivery {
  import opened Basics
  import opened Signals

  // ------------------------------------------------------- what is to be delivered

  /** The signals in the order in which a pass looks at them. */
  function OrderAt(i: nat): Signal
    requires i < 32
  {
    if i < 15 then SIGRTMIN + i else i - 14
  }

  function Values(st: State, s: Signal): (values: seq<Value>)
    requires Valid(st)
    ensures |values| == |st.queues[s]|
  {
    seq(|st.queues[s]|, i requires 0 <= i < |st.queues[s]| => st.info[st.queues[s][i]])
  }

  function QueuedDeliveries(s: Signal, values: seq<Value>, mask: SignalSet): seq<Delivery> {
    seq(|values|, i requires 0 <= i < |values| => Delivery(s, true, Some(values[i]), mask))
  }

  /** What is blocked while the handler of a signal runs. */
  function During(v: Vectors, st: State, s: Signal): SignalSet { st.blocked + v(s).mask }

  /** The handler calls due for a signal of the process: one for each queued value, at least one. */
  function ProcessDeliveries(v: Vectors, st: State, s: Signal): seq<Delivery>
    requires Valid(st)
  {
    if s !in st.processPending then []
    else if v(s).siginfo && st.queues[s] != [] then QueuedDeliveries(s, Values(st, s), During(v, st, s))
    else [Delivery(s, true, None, During(v, st, s))]
  }

  /** The handler calls due for a signal: that of the thread, then those of the process. */
  function Deliveries(v: Vectors, st: State, s: Signal): seq<Delivery>
    requires Valid(st)
  {
    if s in st.blocked || v(s).ignored then []
    else (if s in st.threadPending then [Delivery(s, false, None, During(v, st, s))] else []) + ProcessDeliveries(v, st, s)
  }

  /** All handler calls due, from position `i` of the order on. */
  function Expected(v: Vectors, st: State, i: nat): seq<Delivery>
    requires Valid(st) && i <= 32
    decreases 32 - i
  {
    if i == 32 then [] else Deliveries(v, st, OrderAt(i)) + Expected(v, st, i + 1)
  }

  /** siginfo signals go to the process only. */
  predicate Sane(v: Vectors, st: State) {
    Valid(st) && forall s: Signal :: v(s).siginfo ==> s !in st.threadPending
  }

  /** A pass can drop the signal for good: an ignored one loses only one queued value to it. */
  predicate Droppable(v: Vectors, st: State, s: Signal)
    requires Valid(st)
  {
    s in st.processPending && s !in st.blocked && v(s).ignored && v(s).siginfo ==> |st.queues[s]| <= 1
  }

  // ------------------------------------------------------------- one check

  predicate Quiet(st: State, s: Signal) {
    s in st.blocked || (s !in st.threadPending && s !in st.processPending)
  }

  /** What a check changes of the sets and chains. */
  lemma CheckTouches(v: Vectors, st: State, s: Signal, global: bool)
    requires Valid(st)
    ensures var st' := Check(v, st, s, global).state;
            && st'.blocked == st.blocked && st'.info == st.info
            && st'.threadPending <= st.threadPending && st.threadPending <= st'.threadPending + {s}
            && st'.processPending <= st.processPending && st.processPending <= st'.processPending + {s}
            && |st'.queues| == |st.queues|
            && (forall t :: 0 <= t < |st.queues| && t != s ==> st'.queues[t] == st.queues[t])
            && |st'.queues[s]| <= |st.queues[s]|
  {
  }

  /** A check touches nothing of any other signal. */
  lemma CheckOther(v: Vectors, st: State, s: Signal, global: bool, t: Signal)
    requires Sane(v, st) && t != s
    ensures var st' := Check(v, st, s, global).state;
            && Sane(v, st') && st'.blocked == st.blocked
            && Deliveries(v, st', t) == Deliveries(v, st, t)
            && (Quiet(st, t) <==> Quiet(st', t))
            && (Droppable(v, st, t) <==> Droppable(v, st', t))
  {
    hide Check;
    var st' := Check(v, st, s, global).state;
    CheckTouches(v, st, s, global);
    assert Values(st', t) == Values(st, t);
  }

  lemma CheckThread(v: Vectors, st: State, s: Signal)
    requires Sane(v, st)
    ensures var c := Check(v, st, s, false);
            && Sane(v, c.state) && c.state.blocked == st.blocked
            && if c.handled then
                 && Deliveries(v, st, s) == [Delivery(s, false, None, During(v, st, s))] + Deliveries(v, c.state, s)
                 && c.state.log == st.log + [Delivery(s, false, None, During(v, st, s))]
               else
                 && c.state.log == st.log
                 && Deliveries(v, c.state, s) == Deliveries(v, st, s)
                 && (s !in c.state.threadPending || s in c.state.blocked)
                 && (Droppable(v, c.state, s) <==> Droppable(v, st, s))
  {
    var c := Check(v, st, s, false);
    assert Values(c.state, s) == Values(st, s);
  }

  lemma CheckQueuedValues(v: Vectors, st: State, s: Signal)
    requires Valid(st) && s !in st.blocked && s in st.processPending
    requires v(s).siginfo && !v(s).ignored && st.queues[s] != []
    ensures var c := Check(v, st, s, true);
            && c.handled && c.state.log == st.log + [Delivery(s, true, Some(Values(st, s)[0]), During(v, st, s))]
            && Values(c.state, s) == Values(st, s)[1..]
            && c.state.blocked == st.blocked && c.state.threadPending == st.threadPending
            && (s in c.state.processPending <==> c.state.queues[s] != [])
  {
  }

  lemma CheckQueued(v: Vectors, st: State, s: Signal)
    requires Sane(v, st) && s !in st.threadPending && s !in st.blocked && s in st.processPending
    requires v(s).siginfo && !v(s).ignored && st.queues[s] != []
    ensures var c := Check(v, st, s, true);
            var d := Delivery(s, true, Some(Values(st, s)[0]), During(v, st, s));
            && c.handled && c.state.log == st.log + [d]
            && Deliveries(v, st, s) == [d] + Deliveries(v, c.state, s)
  {
    var c := Check(v, st, s, true);
    CheckQueuedValues(v, st, s);
    hide Check, Values;
    var mask := During(v, st, s);
    assert QueuedDeliveries(s, Values(st, s), mask)[1..] == QueuedDeliveries(s, Values(st, s)[1..], mask);
  }

  lemma CheckProcess(v: Vectors, st: State, s: Signal)
    requires Sane(v, st) && (s !in st.threadPending || s in st.blocked)
    ensures var c := Check(v, st, s, true);
            && Sane(v, c.state) && c.state.blocked == st.blocked
            && if c.handled then
                 && Deliveries(v, st, s) != []
                 && Deliveries(v, st, s) == Deliveries(v, st, s)[..1] + Deliveries(v, c.state, s)
                 && c.state.log == st.log + Deliveries(v, st, s)[..1]
               else
                 && c.state.log == st.log
                 && Deliveries(v, c.state, s) == Deliveries(v, st, s) == []
                 && (Quiet(c.state, s) <==> Droppable(v, st, s))
  {
    CheckTouches(v, st, s, true);
    if v(s).siginfo && !v(s).ignored && st.queues[s] != [] && s in st.processPending && s !in st.blocked {
      CheckQueued(v, st, s);
    }
  }

  /** The work left: pending bits and queued nodes. */
  function Work(st: State): nat {
    |st.threadPending| + |st.processPending| + QueuedNodes(st.queues)
  }

  function QueuedNodes(queues: seq<seq<Node>>): nat {
    if queues == [] then 0 else QueuedNodes(queues[..|queues| - 1]) + |queues[|queues| - 1]|
  }

  lemma {:induction false} QueuedNodesUpdate(queues: seq<seq<Node>>, s: nat, q: seq<Node>)
    requires s < |queues|
    ensures QueuedNodes(queues[s := q]) == QueuedNodes(queues) - |queues[s]| + |q|
  {
    var n := |queues| - 1;
    if s == n {
      assert queues[s := q][..n] == queues[..n];
    } else {
      assert queues[s := q][..n] == queues[..n][s := q];
      QueuedNodesUpdate(queues[..n], s, q);
    }
  }

  lemma CheckWork(v: Vectors, st: State, s: Signal, global: bool)
    requires Valid(st)
    ensures var c := Check(v, st, s, global);
            Work(c.state) <= Work(st) && (c.handled ==> Work(c.state) < Work(st))
  {
    if st.queues[s] != [] {
      QueuedNodesUpdate(st.queues, s, st.queues[s][1..]);
    }
  }

  // -------------------------------------------------------------- one pass

  /** The two loops over the signals, from position `i` on, until a handler is called. */
  function PassFrom(v: Vectors, st: State, i: nat): (c: Checked)
    requires Valid(st) && i <= 32
    ensures Valid(c.state)
    decreases 32 - i
  {
    if i == 32 then Checked(st, false)
    else
      var c1 := Check(v, st, OrderAt(i), false);
      if c1.handled then c1
      else
        var c2 := Check(v, c1.state, OrderAt(i), true);
        if c2.handled then c2 else PassFrom(v, c2.state, i + 1)
  }

  lemma {:induction false} ExpectedAgrees(v: Vectors, st: State, st': State, i: nat)
    requires Valid(st) && Valid(st') && i <= 32
    requires forall j :: i <= j < 32 ==> Deliveries(v, st, OrderAt(j)) == Deliveries(v, st', OrderAt(j))
    ensures Expected(v, st, i) == Expected(v, st', i)
    decreases 32 - i
  {
    if i < 32 {
      ExpectedAgrees(v, st, st', i + 1);
    }
  }

  lemma CheckExpected(v: Vectors, st: State, i: nat, global: bool)
    requires Sane(v, st) && i < 32
    ensures Expected(v, Check(v, st, OrderAt(i), global).state, i + 1) == Expected(v, st, i + 1)
    ensures Sane(v, Check(v, st, OrderAt(i), global).state)
  {
    hide Check, Deliveries;
    var s := OrderAt(i);
    var st' := Check(v, st, s, global).state;
    forall j | i + 1 <= j < 32
      ensures Deliveries(v, st, OrderAt(j)) == Deliveries(v, st', OrderAt(j))
    {
      CheckOther(v, st, s, global, OrderAt(j));
    }
    ExpectedAgrees(v, st, st', i + 1);
    CheckOther(v, st, s, global, OrderAt(if i == 0 then 1 else 0));
  }

  /** A pass from position `i` on leaves the signals before it alone. */
  lemma {:induction false} PassKeepsEarlier(v: Vectors, st: State, i: nat, j: nat)
    requires Sane(v, st) && j < i <= 32
    ensures var st' := PassFrom(v, st, i).state;
            && Deliveries(v, st', OrderAt(j)) == Deliveries(v, st, OrderAt(j))
            && (Quiet(st, OrderAt(j)) <==> Quiet(st', OrderAt(j)))
    decreases 32 - i
  {
    hide Check, Deliveries, Quiet;
    if i < 32 {
      var c1 := Check(v, st, OrderAt(i), false);
      CheckOther(v, st, OrderAt(i), false, OrderAt(j));
      if !c1.handled {
        var c2 := Check(v, c1.state, OrderAt(i), true);
        CheckOther(v, c1.state, OrderAt(i), true, OrderAt(j));
        if !c2.handled {
          PassKeepsEarlier(v, c2.state, i + 1, j);
        }
      }
    }
  }

  /** One pass calls the first handler due and leaves the rest due, or finds nothing left. */
  predicate PassResult(v: Vectors, st: State, i: nat, c: Checked)
    requires Valid(st) && Valid(c.state) && i <= 32
  {
    && Sane(v, c.state) && c.state.blocked == st.blocked && Work(c.state) <= Work(st)
    && if c.handled then
         && Expected(v, st, i) != []
         && c.state.log == st.log + Expected(v, st, i)[..1]
         && Expected(v, c.state, i) == Expected(v, st, i)[1..]
         && Work(c.state) < Work(st)
       else
         && Expected(v, st, i) == [] && Expected(v, c.state, i) == []
         && c.state.log == st.log
         && forall j :: i <= j < 32 ==> (Quiet(c.state, OrderAt(j)) <==> Droppable(v, st, OrderAt(j)))
  }

  /** The checks of one signal that call a handler. */
  lemma HandledResult(v: Vectors, st: State, i: nat, global: bool)
    requires Sane(v, st) && i < 32 && Check(v, st, OrderAt(i), global).handled
    requires global ==> OrderAt(i) !in st.threadPending || OrderAt(i) in st.blocked
    ensures PassResult(v, st, i, Check(v, st, OrderAt(i), global))
  {
    hide Check, Deliveries, Work, Quiet, Droppable, Valid;
    var s := OrderAt(i);
    var st' := Check(v, st, s, global).state;
    if global {
      CheckProcess(v, st, s);
    } else {
      CheckThread(v, st, s);
    }
    CheckExpected(v, st, i, global);
    CheckWork(v, st, s, global);
    FirstOut(Deliveries(v, st, s), Deliveries(v, st', s), Expected(v, st, i + 1));
  }

  lemma FirstOut(due: seq<Delivery>, left: seq<Delivery>, later: seq<Delivery>)
    requires due != [] && due == due[..1] + left
    ensures (due + later)[..1] == due[..1] && (due + later)[1..] == left + later
  {
  }

  /** After both checks of a signal without a handler, the later signals are as they were. */
  lemma SkipSignal(v: Vectors, st: State, i: nat) returns (st': State)
    requires Sane(v, st) && i < 32
    requires !Check(v, st, OrderAt(i), false).handled
    requires !Check(v, Check(v, st, OrderAt(i), false).state, OrderAt(i), true).handled
    ensures st' == Check(v, Check(v, st, OrderAt(i), false).state, OrderAt(i), true).state
    ensures Sane(v, st') && st'.blocked == st.blocked && st'.log == st.log && Work(st') <= Work(st)
    ensures Expected(v, st, i) == Expected(v, st', i + 1) && Deliveries(v, st', OrderAt(i)) == []
    ensures Quiet(st', OrderAt(i)) <==> Droppable(v, st, OrderAt(i))
    ensures forall j :: i < j < 32 ==> (Droppable(v, st', OrderAt(j)) <==> Droppable(v, st, OrderAt(j)))
  {
    hide Check, Deliveries, Work, Quiet, Droppable;
    var s := OrderAt(i);
    var st1 := Check(v, st, s, false).state;
    st' := Check(v, st1, s, true).state;
    CheckThread(v, st, s);
    CheckExpected(v, st, i, false);
    CheckWork(v, st, s, false);
    CheckProcess(v, st1, s);
    CheckExpected(v, st1, i, true);
    CheckWork(v, st1, s, true);
    forall j | i < j < 32
      ensures Droppable(v, st', OrderAt(j)) <==> Droppable(v, st, OrderAt(j))
    {
      CheckOther(v, st, s, false, OrderAt(j));
      CheckOther(v, st1, s, true, OrderAt(j));
    }
  }

  lemma {:induction false} PassDelivers(v: Vectors, st: State, i: nat)
    requires Sane(v, st) && i <= 32
    ensures PassResult(v, st, i, PassFrom(v, st, i))
    decreases 32 - i
  {
    hide Check, Deliveries, Work, Quiet, Droppable;
    if i < 32 {
      var s := OrderAt(i);
      var c1 := Check(v, st, s, false);
      if c1.handled {
        HandledResult(v, st, i, false);
      } else {
        var c2 := Check(v, c1.state, s, true);
        if c2.handled {
          CheckThread(v, st, s);
          CheckExpected(v, st, i, false);
          CheckWork(v, st, s, false);
          HandledResult(v, c1.state, i, true);
        } else {
          var st' := SkipSignal(v, st, i);
          PassDelivers(v, st', i + 1);
          PassKeepsEarlier(v, st', i + 1, i);
        }
      }
    }
  }

  /**
    A pass with no handler to call leaves no unblocked signal pending exactly when no
    ignored signal has more than one value queued: each pass takes one value off it.
   */
  lemma PassClearsIff(v: Vectors, st: State)
    requires Sane(v, st) && Expected(v, st, 0) == []
    ensures NonePending(PassFrom(v, st, 0).state) <==> forall s: Signal :: Droppable(v, st, s)
  {
    hide PassFrom, Deliveries, Work;
    var st' := PassFrom(v, st, 0).state;
    PassDelivers(v, st, 0);
    forall s: Signal
      ensures Quiet(st', s) <==> Droppable(v, st, s)
    {
      OrderCovers(s);
    }
    if NonePending(st') {
      forall s: Signal
        ensures Droppable(v, st, s)
      {
        assert Quiet(st', s);
      }
    } else {
      var s: Signal :| (s in st'.threadPending || s in st'.processPending) && s !in st'.blocked;
      assert !Quiet(st', s);
    }
  }

  // ----------------------------------------------------------- the whole loop

  /** No signal that the thread does not block is pending. */
  predicate NonePending(st: State) {
    forall s: Signal :: s in st.threadPending || s in st.processPending ==> s in st.blocked
  }

  lemma OrderCovers(s: Signal)
    ensures exists j :: 0 <= j < 32 && OrderAt(j) == s
  {
    assert OrderAt(if s >= SIGRTMIN then s - SIGRTMIN else s + 14) == s;
  }

  lemma {:induction false} NothingExpected(v: Vectors, st: State, i: nat)
    requires Valid(st) && NonePending(st) && i <= 32
    ensures Expected(v, st, i) == []
    decreases 32 - i
  {
    if i < 32 {
      NothingExpected(v, st, i + 1);
    }
  }

  /** The two loops of `_POSIX_signals_Post_switch_extension`. */
  method Pass(m: Manager) returns (handled: bool)
    requires Valid(m.View())
    modifies m
    ensures Checked(m.View(), handled) == PassFrom(m.vectors, old(m.View()), 0)
  {
    hide Check, Valid;
    var signo := SIGRTMIN;
    while signo <= SIGRTMAX
      invariant SIGRTMIN <= signo <= SIGRTMAX + 1 && Valid(m.View())
      invariant PassFrom(m.vectors, old(m.View()), 0) == PassFrom(m.vectors, m.View(), signo - SIGRTMIN)
    {
      handled := m.CheckSignal(signo, false);
      if handled {
        return;
      }
      handled := m.CheckSignal(signo, true);
      if handled {
        return;
      }
      signo := signo + 1;
    }
    signo := SIGHUP;
    while signo <= SIGLASTNOTRT
      invariant SIGHUP <= signo <= SIGLASTNOTRT + 1 && Valid(m.View())
      invariant PassFrom(m.vectors, old(m.View()), 0) == PassFrom(m.vectors, m.View(), signo + 14)
    {
      handled := m.CheckSignal(signo, false);
      if handled {
        return;
      }
      handled := m.CheckSignal(signo, true);
      if handled {
        return;
      }
      signo := signo + 1;
    }
    handled := false;
  }

  // ------------------------------------------- what the whole loop leaves

  /** The values queued for an ignored signal that passes take off one by one. */
  function Stuck(v: Vectors, st: State, s: Signal): nat
    requires Valid(st)
  {
    if s in st.processPending && s !in st.blocked && v(s).ignored && v(s).siginfo then |st.queues[s]| else 0
  }

  function Less(n: nat): nat { if n == 0 then 0 else n - 1 }

  /** How many of the deliveries are for signals after `s` in the order. */
  function Later(due: seq<Delivery>, s: Signal): nat {
    if due == [] then 0 else (if Before(s, due[0].signal) then 1 else 0) + Later(due[1..], s)
  }

  /** An ignored signal has at most one value per delivery that comes after it, and one more. */
  predicate Drains(v: Vectors, st: State, s: Signal)
    requires Valid(st)
  {
    Stuck(v, st, s) <= 1 + Later(Expected(v, st, 0), s)
  }

  predicate AllDrain(v: Vectors, st: State)
    requires Valid(st)
  {
    forall s: Signal :: Drains(v, st, s)
  }

  lemma CheckStuck(v: Vectors, st: State, s: Signal, global: bool, t: Signal)
    requires Valid(st)
    ensures Stuck(v, Check(v, st, s, global).state, t) == if t == s && global then Less(Stuck(v, st, t)) else Stuck(v, st, t)
    ensures Check(v, st, s, global).handled ==> Stuck(v, st, s) == 0
  {
    CheckTouches(v, st, s, global);
  }

  lemma OrderIsBefore(i: nat, j: nat)
    requires i < 32 && j < 32
    ensures Before(OrderAt(i), OrderAt(j)) <==> i < j
    ensures OrderAt(i) == OrderAt(j) <==> i == j
  {
  }

  /** The first delivery from position `i` on is for the signal there if it has one, or for a later one. */
  lemma FirstSignal(v: Vectors, st: State, i: nat)
    requires Valid(st) && i < 32 && Expected(v, st, i) != []
    ensures if Deliveries(v, st, OrderAt(i)) != [] then Expected(v, st, i)[0].signal == OrderAt(i)
            else Before(OrderAt(i), Expected(v, st, i)[0].signal)
  {
    hide Deliveries;
    if Deliveries(v, st, OrderAt(i)) != [] {
      DeliveriesSignal(v, st, OrderAt(i), 0);
    } else {
      ExpectedSignals(v, st, i + 1, 0);
    }
  }

  /** A pass that calls a handler takes one value off each ignored signal before the one delivered. */
  lemma {:induction false} PassStuck(v: Vectors, st: State, i: nat, j: nat)
    requires Sane(v, st) && i <= 32 && j < 32 && PassFrom(v, st, i).handled
    ensures Expected(v, st, i) != []
    ensures var s, d := OrderAt(j), Expected(v, st, i)[0].signal;
            Stuck(v, PassFrom(v, st, i).state, s)
            == if i <= j && Before(s, d) then Less(Stuck(v, st, s)) else Stuck(v, st, s)
    decreases 32 - i
  {
    PassDelivers(v, st, i);
    hide Check, Deliveries, Stuck, Work, Expected;
    if i < 32 {
      var o, s := OrderAt(i), OrderAt(j);
      var c1 := Check(v, st, o, false);
      OrderIsBefore(i, j);
      OrderIsBefore(j, i);
      FirstSignal(v, st, i);
      CheckThread(v, st, o);
      CheckStuck(v, st, o, false, s);
      if !c1.handled {
        var c2 := Check(v, c1.state, o, true);
        CheckProcess(v, c1.state, o);
        CheckStuck(v, c1.state, o, true, s);
        if !c2.handled {
          var st' := SkipSignal(v, st, i);
          PassStuck(v, st', i + 1, j);
        }
      }
    }
  }

  /** A pass that calls a handler does not change which ignored signals will have drained in the end. */
  lemma HandledDrains(v: Vectors, st: State)
    requires Sane(v, st) && PassFrom(v, st, 0).handled
    ensures AllDrain(v, st) <==> AllDrain(v, PassFrom(v, st, 0).state)
  {
    hide PassFrom, Stuck, Expected, Work;
    var st' := PassFrom(v, st, 0).state;
    PassDelivers(v, st, 0);
    forall s: Signal
      ensures Drains(v, st, s) <==> Drains(v, st', s)
    {
      OrderCovers(s);
      var j :| 0 <= j < 32 && OrderAt(j) == s;
      PassStuck(v, st, 0, j);
    }
  }

  /** The last pass, in which no handler is called. */
  lemma UnhandledDrains(v: Vectors, st: State)
    requires Sane(v, st) && !PassFrom(v, st, 0).handled
    ensures AllDrain(v, st) <==> NonePending(PassFrom(v, st, 0).state)
  {
    hide PassFrom, Work, Expected;
    PassDelivers(v, st, 0);
    PassClearsIff(v, st);
    assert forall s: Signal :: Drains(v, st, s) <==> Droppable(v, st, s);
  }

  /**
    `_POSIX_signals_Post_switch_extension` terminates, calls exactly the handlers due when
    it began, in order, and restores the blocked mask.  It leaves no unblocked signal
    pending exactly when every ignored signal drains: it had at most one value queued more
    than deliveries were due for signals after it.
   */
  method PostSwitchExtension(m: Manager)
    requires Sane(m.vectors, m.View())
    modifies m
    ensures m.blocked == old(m.blocked)
    ensures m.log == old(m.log) + Expected(m.vectors, old(m.View()), 0)
    ensures NonePending(m.View()) <==> AllDrain(m.vectors, old(m.View()))
  {
    hide Work, PassFrom, Deliveries, Quiet, Droppable, Valid, AllDrain;
    ghost var before := m.View();
    var handled := true;
    while handled && exists s: Signal :: (s in m.threadPending || s in m.processPending) && s !in m.blocked
      invariant Sane(m.vectors, m.View()) && m.blocked == before.blocked
      invariant m.log + Expected(m.vectors, m.View(), 0) == before.log + Expected(m.vectors, before, 0)
      invariant handled ==> (AllDrain(m.vectors, m.View()) <==> AllDrain(m.vectors, before))
      invariant !handled ==> Expected(m.vectors, m.View(), 0) == [] && (NonePending(m.View()) <==> AllDrain(m.vectors, before))
      decreases handled, Work(m.View())
    {
      ghost var st := m.View();
      handled := Pass(m);
      PassDelivers(m.vectors, st, 0);
      if handled {
        RegroupLog(st.log, Expected(m.vectors, st, 0));
        HandledDrains(m.vectors, st);
      } else {
        UnhandledDrains(m.vectors, st);
      }
    }
    if handled {
      NothingExpected(m.vectors, m.View(), 0);
      NothingStuck(m.vectors, m.View());
    }
  }

  lemma NothingStuck(v: Vectors, st: State)
    requires Valid(st) && NonePending(st)
    ensures AllDrain(v, st)
  {
    hide Expected;
  }

  lemma RegroupLog(log: seq<Delivery>, due: seq<Delivery>)
    requires due != []
    ensures log + due[..1] + due[1..] == log + due
  {
  }

  // ------------------------------------------------------- order of deliveries

  lemma DeliveriesSignal(v: Vectors, st: State, s: Signal, k: nat)
    requires Valid(st) && k < |Deliveries(v, st, s)|
    ensures Deliveries(v, st, s)[k].signal == s
  {
  }

  lemma {:induction false} ExpectedSignals(v: Vectors, st: State, i: nat, k: nat)
    requires Valid(st) && i <= 32 && k < |Expected(v, st, i)|
    ensures exists j :: i <= j < 32 && Expected(v, st, i)[k].signal == OrderAt(j) && Deliveries(v, st, OrderAt(j)) != []
    decreases 32 - i
  {
    hide Deliveries;
    var first := Deliveries(v, st, OrderAt(i));
    if k < |first| {
      DeliveriesSignal(v, st, OrderAt(i), k);
    } else {
      ExpectedSignals(v, st, i + 1, k - |first|);
    }
  }

  /** Handlers are called by signal: real-time signals first, each group from the lowest number up. */
  lemma {:induction false} ExpectedSorted(v: Vectors, st: State, i: nat, k: nat, l: nat)
    requires Valid(st) && i <= 32 && k < l < |Expected(v, st, i)|
    ensures var e := Expected(v, st, i);
            e[k].signal == e[l].signal || Before(e[k].signal, e[l].signal)
    decreases 32 - i
  {
    hide Deliveries;
    var first := Deliveries(v, st, OrderAt(i));
    if k < |first| {
      DeliveriesSignal(v, st, OrderAt(i), k);
    }
    if l < |first| {
      DeliveriesSignal(v, st, OrderAt(i), l);
    } else if k < |first| {
      ExpectedSignals(v, st, i + 1, l - |first|);
    } else {
      ExpectedSorted(v, st, i + 1, k - |first|, l - |first|);
    }
  }

  /** The first handler called is for the signal that `GetHighest` picks among those due. */
  lemma FirstIsHighest(v: Vectors, st: State, s: Signal)
    requires Valid(st) && Deliveries(v, st, s) != []
    ensures var e := Expected(v, st, 0);
            e != [] && Deliveries(v, st, e[0].signal) != [] && (e[0].signal == s || Before(e[0].signal, s))
  {
    hide Deliveries;
    OrderCovers(s);
    var j :| 0 <= j < 32 && OrderAt(j) == s;
    FirstFrom(v, st, 0, j);
  }

  lemma {:induction false} FirstFrom(v: Vectors, st: State, i: nat, j: nat)
    requires Valid(st) && i <= j < 32 && Deliveries(v, st, OrderAt(j)) != []
    ensures var e := Expected(v, st, i);
            && e != [] && Deliveries(v, st, e[0].signal) != []
            && (e[0].signal == OrderAt(j) || Before(e[0].signal, OrderAt(j)))
    decreases 32 - i
  {
    hide Deliveries;
    var first := Deliveries(v, st, OrderAt(i));
    if first != [] {
      DeliveriesSignal(v, st, OrderAt(i), 0);
    } else {
      FirstFrom(v, st, i + 1, j);
    }
  }
}

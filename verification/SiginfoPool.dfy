/**
  The pool of siginfo nodes over whole runs with a fixed action table: no node is lost or
  shared, values leave each chain in the order they entered, and a chain with values has
  its pending bit set.
 */
module SiginfoPool {
  import opened Basics
  import opened Signals
  import opened SignalDelivery
  import SignalTarget

  /**
    What happens to the signal state.  `given` says that `killinfo` handed the signal to a
    thread blocked in `sigwait`, so that nothing is posted.
   */
  datatype Step =
    | Kill(signal: Signal, value: Value, given: bool)
    | KillThread(signal: Signal)
    | Take(signal: Signal, global: bool, checkBlocked: bool)
    | Mask(blocked: SignalSet)

  /**
    The state with the history of each chain, the values it accepted and the values taken
    from it, and the number of calls refused with EAGAIN.
   */
  datatype System = System(st: State, accepted: seq<seq<Value>>, taken: seq<seq<Value>>, refused: nat)

  function Append(history: seq<seq<Value>>, s: Signal, value: Value): seq<seq<Value>>
    requires |history| == SIGRTMAX + 1
  {
    history[s := history[s] + [value]]
  }

  const SIGILL: Signal := 4
  const SIGFPE: Signal := 8
  const SIGSEGV: Signal := 11

  /** `pthread_kill` refuses siginfo signals and does nothing for an ignored one. */
  function PostToThread(v: Vectors, st: State, s: Signal): State {
    if v(s).ignored || v(s).siginfo then st else st.(threadPending := st.threadPending + {s})
  }

  /** `killinfo` does nothing for an ignored signal and passes the faults on to `pthread_kill`. */
  function Next(v: Vectors, y: System, step: Step): System
    requires Valid(y.st) && |y.accepted| == SIGRTMAX + 1 && |y.taken| == SIGRTMAX + 1
  {
    match step
    case Kill(s, value, given) =>
      if v(s).ignored then y
      else if s == SIGFPE || s == SIGILL || s == SIGSEGV then y.(st := PostToThread(v, y.st, s))
      else if given then y
      else
        var (st', ok) := Post(v, y.st.(dispatchLevel := y.st.dispatchLevel + 1), s, value);
        y.(st := st',
           accepted := if ok && v(s).siginfo then Append(y.accepted, s, value) else y.accepted,
           refused := if ok then y.refused else y.refused + 1)
    case KillThread(s) => y.(st := PostToThread(v, y.st, s))
    case Take(s, global, checkBlocked) =>
      var c := Clear(v, y.st, s, global, checkBlocked);
      y.(st := c.state, taken := if c.value.Some? then Append(y.taken, s, c.value.value) else y.taken)
    case Mask(blocked) => y.(st := y.st.(blocked := blocked))
  }

  // ------------------------------------------------------------- the invariant

  function AllNodes(n: nat): (m: multiset<Node>)
  {
    if n == 0 then multiset{} else AllNodes(n - 1) + multiset{n - 1}
  }

  lemma {:induction false} AllNodesOnce(n: nat, k: nat)
    ensures AllNodes(n)[k] == if k < n then 1 else 0
  {
    if n > 0 {
      AllNodesOnce(n - 1, k);
    }
  }

  /** The nodes of all chains. */
  function ChainNodes(queues: seq<seq<Node>>): multiset<Node> {
    if queues == [] then multiset{} else ChainNodes(queues[..|queues| - 1]) + multiset(queues[|queues| - 1])
  }

  lemma Shift(x: multiset<Node>, a: multiset<Node>, y: multiset<Node>, b: multiset<Node>, l: multiset<Node>)
    requires x + a == y + b
    ensures (x + l) + a == (y + l) + b
  {
    assert (x + l) + a == (x + a) + l;
    assert (y + l) + b == (y + b) + l;
  }

  lemma {:induction false} ChainNodesUpdate(queues: seq<seq<Node>>, s: nat, q: seq<Node>)
    requires s < |queues|
    ensures ChainNodes(queues[s := q]) + multiset(queues[s]) == ChainNodes(queues) + multiset(q)
  {
    var n := |queues| - 1;
    var front, front' := queues[..n], queues[s := q][..n];
    if s == n {
      assert front' == front;
    } else {
      assert front' == front[s := q];
      ChainNodesUpdate(front, s, q);
      Shift(ChainNodes(front'), multiset(queues[s]), ChainNodes(front), multiset(q), multiset(queues[n]));
    }
  }

  lemma {:induction false} ChainHolds(queues: seq<seq<Node>>, s: nat)
    requires s < |queues|
    ensures multiset(queues[s]) <= ChainNodes(queues)
  {
    if s < |queues| - 1 {
      ChainHolds(queues[..|queues| - 1], s);
    }
  }

  /** Every node of the pool is inactive or in one chain, once. */
  predicate Partition(st: State) {
    multiset(st.inactive) + ChainNodes(st.queues) == AllNodes(|st.info|)
  }

  predicate Fifo(y: System)
    requires Valid(y.st) && |y.accepted| == SIGRTMAX + 1 && |y.taken| == SIGRTMAX + 1
  {
    forall s: Signal :: y.accepted[s] == y.taken[s] + Values(y.st, s)
  }

  predicate PendingOk(st: State)
    requires Valid(st)
  {
    && (forall s: Signal :: st.queues[s] != [] ==> s in st.processPending)
    && st.switchCount == if st.processPending == {} then 0 else 1
  }

  /** An ignored signal is never pending and has nothing queued. */
  predicate IgnoredOk(v: Vectors, st: State)
    requires Valid(st)
  {
    forall s: Signal ::
      && (v(s).ignored ==> st.queues[s] == [] && s !in st.processPending && s !in st.threadPending)
      && (v(s).siginfo ==> s !in st.threadPending)
      && (!v(s).siginfo ==> st.queues[s] == [])
  }

  predicate Inv(v: Vectors, y: System) {
    && Valid(y.st) && |y.accepted| == SIGRTMAX + 1 && |y.taken| == SIGRTMAX + 1
    && Partition(y.st) && Fifo(y) && PendingOk(y.st) && IgnoredOk(v, y.st)
    && y.st.dispatchLevel == y.refused
  }

  // ----------------------------------------------------------------- partition

  lemma MultisetTail(q: seq<Node>)
    requires q != []
    ensures multiset(q) == multiset(q[1..]) + multiset{q[0]}
  {
    assert q == [q[0]] + q[1..];
  }

  lemma MultisetSnoc(q: seq<Node>, node: Node)
    ensures multiset(q + [node]) == multiset(q) + multiset{node}
  {
  }

  /** Moving a node between the pool and a chain keeps the union of both. */
  lemma MoveNode(inactive: multiset<Node>, chains: multiset<Node>, inactive': multiset<Node>, chains': multiset<Node>,
                 q: multiset<Node>, node: Node)
    requires inactive == inactive' + multiset{node} && chains' + q == chains + (q + multiset{node})
    ensures inactive' + chains' == inactive + chains
  {
    forall k
      ensures chains'[k] == (chains + multiset{node})[k]
    {
      assert (chains' + q)[k] == (chains + (q + multiset{node}))[k];
    }
  }

  lemma PostPartition(v: Vectors, st: State, s: Signal, value: Value)
    requires Valid(st) && Partition(st)
    ensures Partition(Post(v, st, s, value).0)
  {
    if v(s).siginfo && st.inactive != [] {
      hide ChainNodes, AllNodes;
      var node, q := st.inactive[0], st.queues[s];
      var st' := Post(v, st, s, value).0;
      MultisetTail(st.inactive);
      MultisetSnoc(q, node);
      ChainNodesUpdate(st.queues, s, q + [node]);
      MoveNode(multiset(st.inactive), ChainNodes(st.queues), multiset(st.inactive[1..]), ChainNodes(st'.queues),
               multiset(q), node);
    }
  }

  lemma ReturnPartition(st: State, s: Signal)
    requires Valid(st) && Partition(st) && st.queues[s] != []
    ensures var q := st.queues[s];
            multiset(st.inactive + [q[0]]) + ChainNodes(st.queues[s := q[1..]]) == AllNodes(|st.info|)
  {
    hide ChainNodes, AllNodes;
    var q := st.queues[s];
    MultisetTail(q);
    MultisetSnoc(st.inactive, q[0]);
    ChainNodesUpdate(st.queues, s, q[1..]);
    MoveNode(multiset(st.inactive + [q[0]]), ChainNodes(st.queues[s := q[1..]]), multiset(st.inactive), ChainNodes(st.queues),
             multiset(q[1..]), q[0]);
  }

  lemma TakePartition(v: Vectors, st: State, s: Signal, global: bool, checkBlocked: bool)
    requires Valid(st) && Partition(st)
    ensures Partition(Clear(v, st, s, global, checkBlocked).state)
  {
    hide ChainNodes, AllNodes;
    if st.queues[s] != [] {
      ReturnPartition(st, s);
    }
  }

  // ---------------------------------------------------------------------- FIFO

  /** The node taken from the pool is in no chain, so filling it changes no queued value. */
  lemma FreshNode(st: State, s: Signal, i: nat)
    requires Valid(st) && Partition(st) && st.inactive != [] && i < |st.queues[s]|
    ensures st.queues[s][i] != st.inactive[0]
  {
    var node := st.inactive[0];
    ChainHolds(st.queues, s);
    AllNodesOnce(|st.info|, node);
    assert multiset(st.inactive)[node] >= 1;
    assert multiset(st.queues[s])[st.queues[s][i]] >= 1;
  }

  lemma PostValues(v: Vectors, st: State, s: Signal, value: Value, t: Signal)
    requires Valid(st) && Partition(st) && v(s).siginfo && st.inactive != []
    ensures var st' := Post(v, st, s, value).0;
            Values(st', t) == if t == s then Values(st, t) + [value] else Values(st, t)
  {
    forall i | 0 <= i < |st.queues[t]|
      ensures st.queues[t][i] != st.inactive[0]
    {
      FreshNode(st, t, i);
    }
  }

  lemma TakeValues(v: Vectors, st: State, s: Signal, global: bool, checkBlocked: bool, t: Signal)
    requires Valid(st)
    ensures var c := Clear(v, st, s, global, checkBlocked);
            Values(st, t) == (if t == s && c.value.Some? then [c.value.value] else []) + Values(c.state, t)
  {
    var c := Clear(v, st, s, global, checkBlocked);
    if t == s && c.value.Some? {
      assert Values(st, t)[0] == c.value.value;
      assert Values(st, t)[1..] == Values(c.state, t);
    } else {
      assert Values(st, t) == Values(c.state, t);
    }
  }

  // --------------------------------------------------------------------- steps

  lemma SamePool(st: State, st': State)
    requires Partition(st) && st'.inactive == st.inactive && st'.queues == st.queues && st'.info == st.info
    ensures Partition(st')
  {
  }

  lemma PostPreserves(v: Vectors, y: System, s: Signal, value: Value)
    requires Inv(v, y) && !v(s).ignored && s != SIGFPE && s != SIGILL && s != SIGSEGV
    ensures Inv(v, Next(v, y, Kill(s, value, false)))
  {
    hide Partition;
    var y' := Next(v, y, Kill(s, value, false));
    var st := y.st.(dispatchLevel := y.st.dispatchLevel + 1);
    assert Partition(st) by {
      assert Partition(y.st);
      SamePool(y.st, st);
    }
    PostPartition(v, st, s, value);
    forall t: Signal
      ensures y'.accepted[t] == y'.taken[t] + Values(y'.st, t)
    {
      if v(s).siginfo && y.st.inactive != [] {
        assert Values(st, t) == Values(y.st, t);
        PostValues(v, st, s, value, t);
      } else {
        assert Values(y'.st, t) == Values(y.st, t);
      }
    }
  }

  lemma TakePreserves(v: Vectors, y: System, s: Signal, global: bool, checkBlocked: bool)
    requires Inv(v, y)
    ensures Inv(v, Next(v, y, Take(s, global, checkBlocked)))
  {
    hide Partition;
    var y' := Next(v, y, Take(s, global, checkBlocked));
    TakePartition(v, y.st, s, global, checkBlocked);
    forall t: Signal
      ensures y'.accepted[t] == y'.taken[t] + Values(y'.st, t)
    {
      TakeValues(v, y.st, s, global, checkBlocked, t);
    }
  }

  /** Changing the thread's sets touches neither the pool nor the process. */
  lemma ThreadPreserves(v: Vectors, y: System, threadPending: SignalSet, blocked: SignalSet)
    requires Inv(v, y) && forall s :: s in threadPending - y.st.threadPending ==> !v(s).ignored && !v(s).siginfo
    ensures Inv(v, y.(st := y.st.(threadPending := threadPending, blocked := blocked)))
  {
    var y' := y.(st := y.st.(threadPending := threadPending, blocked := blocked));
    assert forall t: Signal :: Values(y'.st, t) == Values(y.st, t);
  }

  lemma NextPreserves(v: Vectors, y: System, step: Step)
    requires Inv(v, y)
    ensures Inv(v, Next(v, y, step)) && |Next(v, y, step).st.info| == |y.st.info|
  {
    hide Partition, Fifo, PendingOk, IgnoredOk;
    match step
    case Kill(s, value, given) =>
      if s == SIGFPE || s == SIGILL || s == SIGSEGV {
        ThreadPreserves(v, y, PostToThread(v, y.st, s).threadPending, y.st.blocked);
      } else if !v(s).ignored && !given {
        PostPreserves(v, y, s, value);
      }
    case Take(s, global, checkBlocked) => TakePreserves(v, y, s, global, checkBlocked);
    case KillThread(s) => ThreadPreserves(v, y, PostToThread(v, y.st, s).threadPending, y.st.blocked);
    case Mask(blocked) => ThreadPreserves(v, y, y.st.threadPending, blocked);
  }

  // ---------------------------------------------------------------------- runs

  function Run(v: Vectors, y: System, steps: seq<Step>): (y': System)
    requires Inv(v, y)
    ensures Inv(v, y') && |y'.st.info| == |y.st.info|
    decreases |steps|
  {
    if steps == [] then y
    else
      NextPreserves(v, y, steps[0]);
      Run(v, Next(v, y, steps[0]), steps[1..])
  }

  function Start(n: nat): System {
    System(InitialState(n), seq(SIGRTMAX + 1, i => []), seq(SIGRTMAX + 1, i => []), 0)
  }

  lemma {:induction false} InitialNodes(n: nat)
    ensures multiset(seq(n, i => i)) == AllNodes(n)
  {
    if n > 0 {
      InitialNodes(n - 1);
      assert seq(n, i => i) == seq(n - 1, i => i) + [n - 1];
    }
  }

  function NoNodes(k: nat): seq<seq<Node>> {
    seq(k, i => [])
  }

  lemma {:induction false} EmptyChains(k: nat)
    ensures ChainNodes(NoNodes(k)) == multiset{}
  {
    if k > 0 {
      EmptyChains(k - 1);
      assert NoNodes(k)[..k - 1] == NoNodes(k - 1);
    }
  }

  lemma StartInv(v: Vectors, n: nat)
    ensures Inv(v, Start(n))
  {
    InitialNodes(n);
    EmptyChains(SIGRTMAX + 1);
    var y := Start(n);
    assert forall s: Signal :: Values(y.st, s) == [];
  }

  /**
    In every run from initialization with `n` nodes and a fixed action table: each of the
    `n` nodes is inactive or in exactly one chain, what left a chain is a prefix of what
    entered it, a chain with values has its pending bit set, and the request for the
    post-switch extension stands exactly while something is pending.  Every refused call
    leaves dispatching disabled once more.
   */
  lemma PoolIntegrity(v: Vectors, n: nat, steps: seq<Step>, s: Signal, node: Node)
    ensures Inv(v, Start(n))
    ensures var y := Run(v, Start(n), steps);
            && multiset(y.st.inactive)[node] + ChainNodes(y.st.queues)[node] == (if node < n then 1 else 0)
            && y.taken[s] <= y.accepted[s] && |y.accepted[s]| - |y.taken[s]| == |y.st.queues[s]|
            && (y.st.queues[s] != [] ==> s in y.st.processPending)
            && y.st.switchCount == (if y.st.processPending == {} then 0 else 1)
            && y.st.dispatchLevel == y.refused
  {
    StartInv(v, n);
    var y := Run(v, Start(n), steps);
    AllNodesOnce(|y.st.info|, node);
    assert y.accepted[s] == y.taken[s] + Values(y.st, s);
  }

  /** In such a run the delivery loop can always start and leaves no unblocked signal pending. */
  lemma RunsDeliverable(v: Vectors, y: System)
    requires Inv(v, y)
    ensures Sane(v, y.st) && AllDrain(v, y.st)
  {
    hide Expected;
  }

  // ------------------------------------------------------- what a kill brings about

  /** The last handler call due for a signal that was posted is the one asked for. */
  lemma PostDue(v: Vectors, st: State, s: Signal, value: Value)
    requires Valid(st) && Partition(st) && !v(s).ignored && s !in st.blocked && (v(s).siginfo ==> st.inactive != [])
    ensures var due := Deliveries(v, Post(v, st, s, value).0, s);
            && due != []
            && due[|due| - 1] == Delivery(s, true, if v(s).siginfo then Some(value) else None, During(v, st, s))
  {
    if v(s).siginfo {
      PostValues(v, st, s, value, s);
      hide Values, Partition;
    }
  }

  lemma PostOther(v: Vectors, st: State, s: Signal, value: Value, t: Signal)
    requires Valid(st) && Partition(st) && t != s
    ensures Deliveries(v, Post(v, st, s, value).0, t) == Deliveries(v, st, t)
  {
    var st' := Post(v, st, s, value).0;
    if v(s).siginfo && st.inactive != [] {
      PostValues(v, st, s, value, t);
    } else {
      assert Values(st', t) == Values(st, t);
    }
    hide Values, Partition;
  }

  /** Deliveries do not depend on the dispatch level. */
  lemma LevelFree(v: Vectors, st: State, level: int, t: Signal)
    requires Valid(st)
    ensures var st' := st.(dispatchLevel := level);
            && Valid(st') && Deliveries(v, st', t) == Deliveries(v, st, t)
            && During(v, st', t) == During(v, st, t) && (Partition(st) ==> Partition(st'))
  {
    assert Values(st.(dispatchLevel := level), t) == Values(st, t);
  }

  /**
    A signal of the process that is not ignored becomes pending; unless it is refused, the
    last handler call due for it, once it is not blocked, is the one asked for, with its
    value.
   */
  lemma KillDelivers(v: Vectors, y: System, s: Signal, value: Value)
    requires Inv(v, y) && !v(s).ignored && s != SIGFPE && s != SIGILL && s != SIGSEGV
    ensures var y' := Next(v, y, Kill(s, value, false));
            var due := Deliveries(v, y'.st, s);
            && Valid(y'.st) && s in y'.st.processPending && y'.st.blocked == y.st.blocked
            && (y'.refused > y.refused <==> v(s).siginfo && y.st.inactive == [])
            && (s !in y.st.blocked ==> due != [])
            && (s !in y.st.blocked && y'.refused == y.refused ==>
                  due[|due| - 1] == Delivery(s, true, if v(s).siginfo then Some(value) else None, During(v, y.st, s)))
  {
    hide Partition, Fifo, IgnoredOk, PendingOk;
    var st := y.st.(dispatchLevel := y.st.dispatchLevel + 1);
    RefusedYetPending(v, st, s, value);
    LevelFree(v, y.st, y.st.dispatchLevel + 1, s);
    if s !in y.st.blocked && !(v(s).siginfo && y.st.inactive == []) {
      PostDue(v, st, s, value);
    }
    PostBlocked(v, st, s, value);
    hide Post, During, Deliveries;
  }

  /** Nothing changes for any other signal. */
  lemma KillLeavesOthers(v: Vectors, y: System, s: Signal, value: Value, t: Signal)
    requires Inv(v, y) && !v(s).ignored && s != SIGFPE && s != SIGILL && s != SIGSEGV && t != s
    ensures var y' := Next(v, y, Kill(s, value, false));
            Valid(y'.st) && Deliveries(v, y'.st, t) == Deliveries(v, y.st, t)
  {
    hide Partition, Fifo, IgnoredOk, PendingOk;
    var st := y.st.(dispatchLevel := y.st.dispatchLevel + 1);
    LevelFree(v, y.st, y.st.dispatchLevel + 1, t);
    PostOther(v, st, s, value, t);
    hide Post, Deliveries;
  }

  lemma PostBlocked(v: Vectors, st: State, s: Signal, value: Value)
    requires Valid(st)
    ensures Post(v, st, s, value).0.blocked == st.blocked
    ensures s !in st.blocked && !v(s).ignored ==> Deliveries(v, Post(v, st, s, value).0, s) != []
  {
  }

  /** A signal sent to the thread is delivered to it before any of the process, once it is not blocked; so is a fault. */
  lemma KillThreadDelivers(v: Vectors, y: System, s: Signal, value: Value, given: bool)
    requires Inv(v, y) && !v(s).ignored && !v(s).siginfo
    ensures var y' := Next(v, y, KillThread(s));
            var due := Deliveries(v, y'.st, s);
            && s in y'.st.threadPending
            && (s !in y.st.blocked ==> due != [] && due[0] == Delivery(s, false, None, During(v, y.st, s)))
            && (s in {SIGFPE, SIGILL, SIGSEGV} ==> Next(v, y, Kill(s, value, given)) == y')
  {
  }

  /** The thread that `killinfo` chooses for being interested has a handler call due when it next looks. */
  lemma ChosenThreadTakes(v: Vectors, y: System, s: Signal, value: Value, t: SignalTarget.Thread)
    requires Inv(v, y) && !v(s).ignored && s != SIGFPE && s != SIGILL && s != SIGSEGV
    requires t.blocked == Some(y.st.blocked)
    ensures Valid(Next(v, y, Kill(s, value, false)).st)
    ensures SignalTarget.Interested(t, s) <==> Deliveries(v, Next(v, y, Kill(s, value, false)).st, s) != []
  {
    KillDelivers(v, y, s, value);
  }

  /** A signal is taken exactly if it is pending where it is looked for, and not blocked if that counts. */
  lemma TakeFindsIff(v: Vectors, st: State, s: Signal, global: bool, checkBlocked: bool)
    requires Valid(st)
    ensures var c := Clear(v, st, s, global, checkBlocked);
            && (c.found <==>
                  s in (if global then st.processPending else st.threadPending) && !(checkBlocked && s in st.blocked))
            && (!c.found ==> c.state == st)
            && (c.value.Some? <==> c.found && global && v(s).siginfo && st.queues[s] != [])
            && (c.found && (!global || !v(s).siginfo || |st.queues[s]| <= 1) ==>
                  s !in if global then c.state.processPending else c.state.threadPending)
  {
  }

  // -------------------------------------------------------------- where it ends

  /**
    `killinfo` reports EAGAIN exactly for a siginfo signal with the pool exhausted, after it
    has set the pending bit: the signal is pending, no value is queued, and dispatching
    stays disabled.
   */
  lemma RefusedYetPending(v: Vectors, st: State, s: Signal, value: Value)
    requires Valid(st)
    ensures var (posted, ok) := Post(v, st, s, value);
            && (!ok <==> v(s).siginfo && st.inactive == [])
            && s in posted.processPending
            && posted.dispatchLevel == st.dispatchLevel - (if ok then 1 else 0)
            && (!ok ==> posted.queues == st.queues && posted.inactive == [] && posted.info == st.info)
  {
  }

  /** A siginfo handler runs without a value exactly when its chain is empty, as a refusal can leave it. */
  lemma ValuelessIff(v: Vectors, st: State, s: Signal)
    requires Valid(st) && v(s).siginfo && !v(s).ignored && s in st.processPending && s !in st.blocked
    ensures var c := Check(v, st, s, true);
            && c.handled && |c.state.log| == |st.log| + 1
            && (c.state.log[|st.log|].value == None <==> st.queues[s] == [])
  {
  }

  /**
    `sigaction` clears the pending bit and neither drains the chain nor looks whether the
    bit was set: what runs keep about pending signals survives it exactly when the signal
    has nothing queued and something is pending.
   */
  lemma SigactionKeepsPendingIff(st: State, s: Signal)
    requires Valid(st) && PendingOk(st)
    ensures PendingOk(ClearProcess(st, s)) <==> st.queues[s] == [] && st.processPending != {}
  {
    var st' := ClearProcess(st, s);
    assert s !in st'.processPending;
    if st.processPending == {} {
      assert st'.processPending == {};
    }
  }
}

/**
  Which thread `killinfo` directs a signal to: the executing thread if it is interested,
  else a thread that waits for the signal, else the best of all threads by priority.
 */
module SignalTarget {
  import opened Basics
  import opened Signals

  const PRIORITY_MAXIMUM := 255
  const STATES_READY: bv32 := 0x00000
  const STATES_INTERRUPTIBLE_BY_SIGNAL: bv32 := 0x10000

  /** A core priority; 0 is the highest. */
  type Priority = p: int | 0 <= p <= PRIORITY_MAXIMUM

  /** `blocked` is None for a thread without a POSIX API area; `waitsFor` is `Wait.option`. */
  datatype Thread = Thread(priority: Priority, state: bv32, blocked: Option<SignalSet>, waitsFor: SignalSet)

  /** The local table of a thread class; slot `i` of `slots` is index `i + 1` of the table. */
  datatype Class = Class(isInternal: bool, slots: Option<seq<Option<Thread>>>)

  /** Where a thread was found. */
  datatype Target =
    | Executing
    | Waiting(header: nat, group: nat)
    | Table(class_: nat, slot: nat)
    | Nobody

  predicate Interested(t: Thread, s: Signal) {
    t.blocked.Some? && s !in t.blocked.value
  }

  predicate Ready(t: Thread) { t.state == STATES_READY }

  predicate Interruptible(t: Thread) { t.state & STATES_INTERRUPTIBLE_BY_SIGNAL != 0 }

  /** The tie-breaker among threads of one priority. */
  function Rank(t: Thread): nat {
    if Ready(t) then 0 else if Interruptible(t) then 1 else 2
  }

  /** `a` is a strictly better receiver than `b`. */
  predicate Better(a: Thread, b: Thread) {
    a.priority < b.priority || (a.priority == b.priority && Rank(a) < Rank(b))
  }

  /** The scan meets `(c, i)` before `(d, j)`. */
  predicate Earlier(c: nat, i: nat, d: nat, j: nat) {
    c < d || (c == d && i < j)
  }

  /** `(c, i)` holds a thread the scan may choose. */
  predicate Candidate(classes: seq<Class>, s: Signal, c: nat, i: nat) {
    && c < |classes| && !classes[c].isInternal && classes[c].slots.Some?
    && i < |classes[c].slots.value| && classes[c].slots.value[i].Some?
    && Interested(classes[c].slots.value[i].value, s)
  }

  function At(classes: seq<Class>, s: Signal, c: nat, i: nat): Thread
    requires Candidate(classes, s, c, i)
  {
    classes[c].slots.value[i].value
  }

  /** `(c, i)` is a best candidate among those before `(d, j)`, and the first such. */
  ghost predicate BestBefore(classes: seq<Class>, s: Signal, c: nat, i: nat, d: nat, j: nat) {
    && Candidate(classes, s, c, i) && Earlier(c, i, d, j)
    && forall e: nat, k: nat | Candidate(classes, s, e, k) && Earlier(e, k, d, j) ::
         Better(At(classes, s, c, i), At(classes, s, e, k))
         || (!Better(At(classes, s, e, k), At(classes, s, c, i)) && !Earlier(e, k, c, i))
  }

  ghost predicate NoneBefore(classes: seq<Class>, s: Signal, d: nat, j: nat) {
    forall e: nat, k: nat :: Candidate(classes, s, e, k) ==> !Earlier(e, k, d, j)
  }

  /** What the scan has when it is about to look at `(d, j)`. */
  ghost predicate Scanned(classes: seq<Class>, s: Signal, best: Target, priority: int, d: nat, j: nat) {
    match best
    case Nobody => priority == PRIORITY_MAXIMUM + 1 && NoneBefore(classes, s, d, j)
    case Table(c, i) => BestBefore(classes, s, c, i, d, j) && priority == At(classes, s, c, i).priority
    case _ => false
  }

  /** Nothing lies between the end of a class and the start of the next. */
  lemma NextClass(classes: seq<Class>, s: Signal, best: Target, priority: int, d: nat, j: nat)
    requires Scanned(classes, s, best, priority, d, j)
    requires forall k: nat :: Candidate(classes, s, d, k) ==> k < j
    ensures Scanned(classes, s, best, priority, d + 1, 0)
  {
  }

  /** A slot that is no candidate changes nothing. */
  lemma SkipSlot(classes: seq<Class>, s: Signal, best: Target, priority: int, d: nat, j: nat)
    requires Scanned(classes, s, best, priority, d, j)
    requires Candidate(classes, s, d, j) ==>
               best.Table? && !Better(At(classes, s, d, j), At(classes, s, best.class_, best.slot))
    ensures Scanned(classes, s, best, priority, d, j + 1)
  {
  }

  /** A candidate that is better takes over. */
  lemma TakeSlot(classes: seq<Class>, s: Signal, best: Target, priority: int, d: nat, j: nat)
    requires Scanned(classes, s, best, priority, d, j) && Candidate(classes, s, d, j)
    requires best.Table? ==> Better(At(classes, s, d, j), At(classes, s, best.class_, best.slot))
    ensures Scanned(classes, s, Table(d, j), At(classes, s, d, j).priority, d, j + 1)
  {
  }

  /** One round of the inner loop. */
  method Consider(classes: seq<Class>, s: Signal, best: Target, priority: int, d: nat, j: nat)
    returns (best': Target, priority': int)
    requires d < |classes| && !classes[d].isInternal && classes[d].slots.Some? && j < |classes[d].slots.value|
    requires Scanned(classes, s, best, priority, d, j)
    ensures Scanned(classes, s, best', priority', d, j + 1)
  {
    best', priority' := best, priority;
    var slot := classes[d].slots.value[j];
    if slot.None? || slot.value.priority > priority || !Interested(slot.value, s) {
      SkipSlot(classes, s, best, priority, d, j);
      return;
    }
    var thread := slot.value;
    assert thread == At(classes, s, d, j);
    if thread.priority < priority {
      TakeSlot(classes, s, best, priority, d, j);
      return Table(d, j), thread.priority;
    }
    var interested := At(classes, s, best.class_, best.slot);
    if Ready(interested) {
      SkipSlot(classes, s, best, priority, d, j);
      return;
    }
    if Ready(thread) {
      TakeSlot(classes, s, best, priority, d, j);
      return Table(d, j), thread.priority;
    }
    if Interruptible(interested) {
      SkipSlot(classes, s, best, priority, d, j);
      return;
    }
    if Interruptible(thread) {
      TakeSlot(classes, s, best, priority, d, j);
      return Table(d, j), thread.priority;
    }
    SkipSlot(classes, s, best, priority, d, j);
  }

  /** `(c, i)` is the best candidate of all, the earliest of equals. */
  ghost predicate Best(classes: seq<Class>, s: Signal, c: nat, i: nat) {
    && Candidate(classes, s, c, i)
    && forall e: nat, k: nat | Candidate(classes, s, e, k) && (e, k) != (c, i) ::
         var chosen, other := At(classes, s, c, i), At(classes, s, e, k);
         Better(chosen, other) || (!Better(other, chosen) && Earlier(c, i, e, k))
  }

  /** The scan over every thread of every class but the internal one. */
  method Scan(classes: seq<Class>, s: Signal) returns (best: Target)
    ensures best.Nobody? || best.Table?
    ensures best.Nobody? <==> forall c: nat, i: nat :: !Candidate(classes, s, c, i)
    ensures best.Table? ==> Best(classes, s, best.class_, best.slot)
  {
    best := Nobody;
    var priority := PRIORITY_MAXIMUM + 1;
    for d := 0 to |classes|
      invariant Scanned(classes, s, best, priority, d, 0)
    {
      ghost var end: nat := 0;
      if !classes[d].isInternal && classes[d].slots.Some? {
        var slots := classes[d].slots.value;
        for j := 0 to |slots|
          invariant Scanned(classes, s, best, priority, d, j)
        {
          best, priority := Consider(classes, s, best, priority, d, j);
        }
        end := |slots|;
      }
      NextClass(classes, s, best, priority, d, end);
    }
    assert forall c: nat, i: nat :: Candidate(classes, s, c, i) ==> Earlier(c, i, |classes|, 0);
  }

  /** A best candidate is unique, so the scan's contract leaves it no choice. */
  lemma BestUnique(classes: seq<Class>, s: Signal, c: nat, i: nat, d: nat, j: nat)
    requires Best(classes, s, c, i) && Best(classes, s, d, j)
    ensures (c, i) == (d, j)
  {
  }

  // -------------------------------------------------------------- the wait queue

  /**
    The priority queue of `sigwait`: per header, the groups of threads of one priority.
    A header chains the first thread of each group; the others hang off that thread.
   */
  type WaitQueue = q: seq<seq<seq<Thread>>> | forall h, g | 0 <= h < |q| && 0 <= g < |q[h]| :: q[h][g] != []
    witness []

  /** A thread in the queue takes a signal it waits for or has not blocked. */
  predicate WouldTake(t: Thread, s: Signal) {
    s in t.waitsFor || Interested(t, s)
  }

  predicate HeadTakes(queue: WaitQueue, s: Signal, h: nat, g: nat) {
    h < |queue| && g < |queue[h]| && WouldTake(queue[h][g][0], s)
  }

  /** The first thread of a group is found for a signal it waits for and for one that it merely does not block. */
  lemma HeadTakesIff(queue: WaitQueue, s: Signal, h: nat, g: nat)
    requires h < |queue| && g < |queue[h]|
    ensures HeadTakes(queue, s, h, g) <==>
              var t := queue[h][g][0]; s in t.waitsFor || (t.blocked.Some? && s !in t.blocked.value)
  {
  }

  /** The first thread on a header's own chain that would take the signal. */
  method SearchWaiting(queue: WaitQueue, s: Signal) returns (found: Target)
    ensures found.Nobody? || found.Waiting?
    ensures found.Nobody? <==> forall h: nat, g: nat :: !HeadTakes(queue, s, h, g)
    ensures found.Waiting? ==>
              && HeadTakes(queue, s, found.header, found.group)
              && forall h: nat, g: nat :: HeadTakes(queue, s, h, g) ==> !Earlier(h, g, found.header, found.group)
  {
    for h := 0 to |queue|
      invariant forall e: nat, k: nat :: HeadTakes(queue, s, e, k) ==> !Earlier(e, k, h, 0)
    {
      for g := 0 to |queue[h]|
        invariant forall e: nat, k: nat :: HeadTakes(queue, s, e, k) ==> !Earlier(e, k, h, g)
      {
        if WouldTake(queue[h][g][0], s) {
          assert HeadTakes(queue, s, h, g);
          return Waiting(h, g);
        }
      }
    }
    found := Nobody;
  }

  // ------------------------------------------------------------ the whole choice

  /** What `killinfo` ought to find: the executing thread, any waiting thread, the best of the others. */
  ghost predicate SomeoneTakes(executing: Thread, queue: WaitQueue, classes: seq<Class>, s: Signal) {
    || Interested(executing, s)
    || (exists h, g, p :: 0 <= h < |queue| && 0 <= g < |queue[h]| && 0 <= p < |queue[h][g]| && WouldTake(queue[h][g][p], s))
    || (exists c: nat, i: nat :: Candidate(classes, s, c, i))
  }

  /**
    Somebody takes the signal only through a thread that is second or later in its group:
    the search of the wait queue does not look there.
   */
  ghost predicate OnlyHidden(executing: Thread, queue: WaitQueue, classes: seq<Class>, s: Signal) {
    && SomeoneTakes(executing, queue, classes, s)
    && !Interested(executing, s)
    && (forall h: nat, g: nat :: !HeadTakes(queue, s, h, g))
    && (forall c: nat, i: nat :: !Candidate(classes, s, c, i))
  }

  /** The choice, in `killinfo`'s order; it misses somebody exactly when only hidden threads would take the signal. */
  method Choose(executing: Thread, queue: WaitQueue, classes: seq<Class>, s: Signal) returns (target: Target)
    requires executing.blocked.Some?
    ensures target.Executing? <==> Interested(executing, s)
    ensures target.Waiting? <==> !Interested(executing, s) && exists h: nat, g: nat :: HeadTakes(queue, s, h, g)
    ensures target.Waiting? ==>
              && HeadTakes(queue, s, target.header, target.group)
              && forall h: nat, g: nat :: HeadTakes(queue, s, h, g) ==> !Earlier(h, g, target.header, target.group)
    ensures target.Table? ==> Best(classes, s, target.class_, target.slot)
    ensures target.Nobody? <==>
              !SomeoneTakes(executing, queue, classes, s) || OnlyHidden(executing, queue, classes, s)
  {
    if Interested(executing, s) {
      return Executing;
    }
    target := SearchWaiting(queue, s);
    if target.Nobody? {
      target := Scan(classes, s);
    } else {
      assert WouldTake(queue[target.header][target.group][0], s);
    }
  }

  /** It happens: two threads of one priority wait, and only the second wants the signal, which both have blocked. */
  lemma HiddenWaiter(executing: Thread, s: Signal, other: Signal)
    requires executing.blocked == Some({s}) && s != other
    ensures var first := Thread(1, 0x18000, Some({s}), {other});
            var second := first.(waitsFor := {s});
            OnlyHidden(executing, [[[first, second]]], [Class(false, Some([Some(first), Some(second)]))], s)
  {
    var first := Thread(1, 0x18000, Some({s}), {other});
    var queue: WaitQueue := [[[first, first.(waitsFor := {s})]]];
    assert WouldTake(queue[0][0][1], s);
  }
}

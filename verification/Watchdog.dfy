/**
  The watchdog handler: timers on a delta chain, where each node holds the ticks after the
  node before it.  A chain means the ticks that remain to each timer.
 */
module Watchdog {

  const MAX_INTERVAL := 0xFFFF_FFFF

  type Id = nat

  datatype Node = Node(id: Id, delta: nat)

  type Chain = seq<Node>

  /** A timer and the ticks that remain to it. */
  type Timer = (Id, nat)

  /** The timers of a chain in order, counted from `base`. */
  function Timers(c: Chain, base: nat): (ts: seq<Timer>)
    ensures |ts| == |c|
  {
    if c == [] then [] else [(c[0].id, base + c[0].delta)] + Timers(c[1..], base + c[0].delta)
  }

  /** The first timer is due at a later tick, as it is between ticks. */
  predicate Settled(c: Chain) {
    c != [] ==> c[0].delta >= 1
  }

  // ------------------------------------------------------------------- operations

  /** `_Watchdog_Insert` without interruption: `left` ticks after the start of the chain. */
  function Inserted(c: Chain, id: Id, left: nat): Chain {
    if left == 0 || c == [] then [Node(id, left)] + c
    else if left < c[0].delta then [Node(id, left), Node(c[0].id, c[0].delta - left)] + c[1..]
    else [c[0]] + Inserted(c[1..], id, left - c[0].delta)
  }

  /** Where it goes: behind the first timer of its own deadline, if there is one. */
  function Place(c: Chain, left: nat): (p: nat)
    ensures p <= |c|
  {
    if left == 0 || c == [] || left < c[0].delta then 0 else 1 + Place(c[1..], left - c[0].delta)
  }

  /** `_Watchdog_Remove` of an active watchdog: its ticks go to the next one. */
  function Removed(c: Chain, k: nat): (c': Chain)
    requires k < |c|
    ensures |c'| == |c| - 1
  {
    c[..k] + (if k + 1 < |c| then [Node(c[k + 1].id, c[k + 1].delta + c[k].delta)] + c[k + 2..] else [])
  }

  /** The chain after a tick, and the timers that fired. */
  datatype Outcome = Outcome(chain: Chain, fired: seq<Id>)

  /** The timers at the front that are due. */
  function DueCount(c: Chain): nat {
    if c == [] || c[0].delta != 0 then 0 else 1 + DueCount(c[1..])
  }

  type Interval = n: nat | n > 0 witness 1

  /** The timers, each with its interval, that the routine of a timer inserts; a periodic timer inserts itself. */
  type Routines = Id -> seq<(Id, Interval)>

  function InsertedAll(c: Chain, news: seq<(Id, Interval)>): Chain
    decreases |news|
  {
    if news == [] then c else InsertedAll(Inserted(c, news[0].0, news[0].1), news[1..])
  }

  /** What the routine of a timer does to the chain. */
  function AfterRoutine(c: Chain, id: Id, routines: Routines): Chain {
    InsertedAll(c, routines(id))
  }

  /** A timer inserted for later goes behind those that are due. */
  lemma {:induction false} InsertedKeepsDue(c: Chain, id: Id, left: nat)
    requires left > 0
    ensures var k := DueCount(c);
            var c' := Inserted(c, id, left);
            && k == DueCount(c') <= Place(c, left)
            && k <= |c| && k <= |c'| && c'[..k] == c[..k]
  {
    if c != [] && c[0].delta == 0 {
      assert Inserted(c, id, left)[1..] == Inserted(c[1..], id, left);
      InsertedKeepsDue(c[1..], id, left);
      var k := DueCount(c[1..]);
      assert c[..k + 1] == [c[0]] + c[1..][..k];
    }
  }

  lemma {:induction false} InsertedAllKeepsDue(c: Chain, news: seq<(Id, Interval)>)
    ensures var k := DueCount(c);
            var c' := InsertedAll(c, news);
            k == DueCount(c') && k <= |c| && k <= |c'| && c'[..k] == c[..k]
    decreases |news|
  {
    if news == [] {
      DueCountBound(c);
    } else {
      InsertedKeepsDue(c, news[0].0, news[0].1);
      InsertedAllKeepsDue(Inserted(c, news[0].0, news[0].1), news[1..]);
    }
  }

  /** The routine of the first timer leaves the others that are due. */
  lemma RoutineKeepsDue(c: Chain, routines: Routines)
    requires c != [] && c[0].delta == 0
    ensures var k := DueCount(c);
            var c1 := AfterRoutine(Removed(c, 0), c[0].id, routines);
            && Removed(c, 0) == c[1..]
            && DueCount(c[1..]) == DueCount(c1) == k - 1 <= |c1| && k <= |c| && c1[..k - 1] == c[1..k]
  {
    assert Removed(c, 0) == c[1..];
    DueCountBound(c);
    InsertedAllKeepsDue(c[1..], routines(c[0].id));
  }

  lemma {:induction false} DueCountBound(c: Chain)
    ensures DueCount(c) <= |c|
  {
    if c != [] {
      DueCountBound(c[1..]);
    }
  }

  /** The loop of `_Watchdog_Tickle`: each due timer is removed and its routine called. */
  function FireDue(c: Chain, routines: Routines): (o: Outcome)
    decreases DueCount(c)
  {
    if c == [] || c[0].delta != 0 then Outcome(c, [])
    else
      RoutineKeepsDue(c, routines);
      var o := FireDue(AfterRoutine(Removed(c, 0), c[0].id, routines), routines);
      Outcome(o.chain, [c[0].id] + o.fired)
  }

  function LowerFirst(c: Chain, n: nat): Chain
    requires c != [] && n <= c[0].delta
  {
    c[0 := Node(c[0].id, c[0].delta - n)]
  }

  /** `_Watchdog_Tickle`; the delta of a node inserted with a zero interval wraps around. */
  function Tickled(c: Chain, routines: Routines): Outcome {
    if c == [] then Outcome(c, [])
    else if c[0].delta == 0 then Outcome(c[0 := Node(c[0].id, MAX_INTERVAL)], [])
    else FireDue(LowerFirst(c, 1), routines)
  }

  /** `n` ticks in a row. */
  function Ticks(c: Chain, n: nat, routines: Routines): Outcome
    decreases n
  {
    if n == 0 then Outcome(c, [])
    else
      var o := Tickled(c, routines);
      var rest := Ticks(o.chain, n - 1, routines);
      Outcome(rest.chain, o.fired + rest.fired)
  }

  /** `_Watchdog_Adjust` forward: it jumps from one expiration to the next. */
  function Forward(c: Chain, units: nat, routines: Routines): Outcome
    decreases units, !Settled(c)
  {
    if c == [] || units == 0 then Outcome(c, [])
    else if units < c[0].delta then Outcome(LowerFirst(c, units), [])
    else
      var o := Tickled(c[0 := Node(c[0].id, 1)], routines);
      FireDueSettles(LowerFirst(c, c[0].delta), routines);
      assert LowerFirst(c[0 := Node(c[0].id, 1)], 1) == LowerFirst(c, c[0].delta);
      var rest := Forward(o.chain, units - c[0].delta, routines);
      Outcome(rest.chain, o.fired + rest.fired)
  }

  lemma {:induction false} FireDueSettles(c: Chain, routines: Routines)
    ensures Settled(FireDue(c, routines).chain)
    decreases DueCount(c)
  {
    if c != [] && c[0].delta == 0 {
      RoutineKeepsDue(c, routines);
      FireDueSettles(AfterRoutine(Removed(c, 0), c[0].id, routines), routines);
    }
  }

  // ------------------------------------------------------- fast-forward is ticking

  lemma TickledSettles(c: Chain, routines: Routines)
    ensures Settled(Tickled(c, routines).chain)
  {
    if c != [] && c[0].delta > 0 {
      FireDueSettles(LowerFirst(c, 1), routines);
    }
  }

  lemma {:induction false} TicksBeforeDue(c: Chain, n: nat, routines: Routines)
    requires c != [] && n < c[0].delta
    ensures Ticks(c, n, routines) == Outcome(LowerFirst(c, n), [])
    decreases n
  {
    if n > 0 {
      var c1 := LowerFirst(c, 1);
      assert Tickled(c, routines) == Outcome(c1, []);
      TicksBeforeDue(c1, n - 1, routines);
      assert LowerFirst(c1, n - 1) == LowerFirst(c, n);
    } else {
      assert LowerFirst(c, 0) == c;
    }
  }

  lemma {:induction false} TicksSum(c: Chain, m: nat, n: nat, routines: Routines)
    ensures var a := Ticks(c, m, routines);
            var b := Ticks(a.chain, n, routines);
            Ticks(c, m + n, routines) == Outcome(b.chain, a.fired + b.fired)
    decreases m
  {
    if m > 0 {
      var o := Tickled(c, routines);
      TicksSum(o.chain, m - 1, n, routines);
      var a := Ticks(o.chain, m - 1, routines);
      var b := Ticks(a.chain, n, routines);
      assert o.fired + (a.fired + b.fired) == (o.fired + a.fired) + b.fired;
    }
  }

  lemma {:induction false} TicksEmpty(n: nat, routines: Routines)
    ensures Ticks([], n, routines) == Outcome([], [])
  {
    if n > 0 {
      TicksEmpty(n - 1, routines);
    }
  }

  /** A clock set forward by `n` leaves the timers, and fires them in the order, of `n` ticks. */
  lemma {:induction false} ForwardIsTicks(c: Chain, n: nat, routines: Routines)
    requires Settled(c)
    ensures Forward(c, n, routines) == Ticks(c, n, routines)
    decreases n
  {
    hide FireDue;
    if c == [] {
      TicksEmpty(n, routines);
    } else if n > 0 && n < c[0].delta {
      TicksBeforeDue(c, n, routines);
    } else if n > 0 {
      var d := c[0].delta;
      var near := LowerFirst(c, d - 1);
      assert c[0 := Node(c[0].id, 1)] == near;
      var o := Tickled(near, routines);
      TickledSettles(near, routines);
      ForwardIsTicks(o.chain, n - d, routines);
      TicksBeforeDue(c, d - 1, routines);
      TicksSum(c, d - 1, n - d + 1, routines);
    }
  }

  /**
    For every adjustment that 32 bits can ask for this is so exactly when the chain is
    settled: a timer with a zero delta in front fires at once and would wrap around at a tick.
   */
  lemma ForwardIsTicksIff(c: Chain, n: nat, routines: Routines)
    requires 0 < n <= MAX_INTERVAL
    ensures Forward(c, n, routines) == Ticks(c, n, routines) <==> Settled(c)
  {
    if Settled(c) {
      ForwardIsTicks(c, n, routines);
    } else {
      var near, far := c[0 := Node(c[0].id, 1)], c[0 := Node(c[0].id, MAX_INTERVAL)];
      assert LowerFirst(near, 1)[0].delta == 0;
      assert Tickled(near, routines).fired != [];
      assert Tickled(c, routines) == Outcome(far, []);
      TicksBeforeDue(far, n - 1, routines);
    }
  }

  // ---------------------------------------------------------------------- deadlines

  /** An insertion at the front of the chain. */
  lemma InsertedFirst(c: Chain, id: Id, left: nat, now: nat)
    requires left == 0 || c == [] || left < c[0].delta
    ensures Timers(Inserted(c, id, left), now) == [(id, now + left)] + Timers(c, now)
  {
    var c' := Inserted(c, id, left);
    if left == 0 || c == [] {
      assert c'[1..] == c;
    } else {
      assert c'[1..] == [Node(c[0].id, c[0].delta - left)] + c[1..];
      assert c'[1..][1..] == c[1..];
    }
  }

  lemma Splice(x: Timer, rest: seq<Timer>, middle: seq<Timer>, p: nat, q: nat)
    requires p <= q <= |rest|
    ensures [x] + (rest[..p] + middle + rest[q..]) == ([x] + rest)[..p + 1] + middle + ([x] + rest)[q + 1..]
  {
  }

  /** An insertion adds one deadline and moves none. */
  lemma {:induction false} InsertedTimers(c: Chain, id: Id, left: nat, now: nat)
    ensures var ts, p := Timers(c, now), Place(c, left);
            Timers(Inserted(c, id, left), now) == ts[..p] + [(id, now + left)] + ts[p..]
  {
    var ts := Timers(c, now);
    if left == 0 || c == [] || left < c[0].delta {
      InsertedFirst(c, id, left, now);
    } else {
      var d, rest := c[0].delta, Timers(c[1..], now + c[0].delta);
      var p := Place(c[1..], left - d);
      assert Inserted(c, id, left)[1..] == Inserted(c[1..], id, left - d);
      assert Timers(Inserted(c, id, left), now) == [ts[0]] + Timers(Inserted(c[1..], id, left - d), now + d);
      assert ts == [ts[0]] + rest;
      hide Timers, Inserted;
      InsertedTimers(c[1..], id, left - d, now + d);
      Splice(ts[0], rest, [(id, now + left)], p, p);
    }
  }

  lemma RemovedFirst(c: Chain, now: nat)
    requires c != []
    ensures Timers(Removed(c, 0), now) == Timers(c, now)[1..]
  {
    if |c| > 1 {
      assert Removed(c, 0)[1..] == c[1..][1..];
    }
  }

  /** A removal drops one deadline and moves none. */
  lemma {:induction false} RemovedTimers(c: Chain, k: nat, now: nat)
    requires k < |c|
    ensures Timers(Removed(c, k), now) == Timers(c, now)[..k] + Timers(c, now)[k + 1..]
  {
    var ts := Timers(c, now);
    if k == 0 {
      RemovedFirst(c, now);
    } else {
      var rest := Timers(c[1..], now + c[0].delta);
      assert Removed(c, k)[0] == c[0] && Removed(c, k)[1..] == Removed(c[1..], k - 1);
      assert ts == [ts[0]] + rest;
      assert Timers(Removed(c, k), now) == [ts[0]] + Timers(Removed(c[1..], k - 1), now + c[0].delta);
      hide Removed, Timers;
      RemovedTimers(c[1..], k - 1, now + c[0].delta);
      assert rest[..k - 1] + [] == rest[..k - 1] && ts[..k] + [] == ts[..k];
      Splice(ts[0], rest, [], k - 1, k);
    }
  }

  /** Time that passes before the first expiration moves no deadline. */
  lemma LowerFirstTimers(c: Chain, n: nat, now: nat)
    requires c != [] && n <= c[0].delta
    ensures Timers(LowerFirst(c, n), now + n) == Timers(c, now)
  {
    assert LowerFirst(c, n)[1..] == c[1..];
  }

  lemma {:induction false} TimersLate(c: Chain, now: nat, i: nat)
    requires i < |c|
    ensures Timers(c, now)[i].0 == c[i].id && Timers(c, now)[i].1 >= now + c[0].delta
  {
    if i > 0 {
      TimersLate(c[1..], now + c[0].delta, i - 1);
    }
  }

  /** The due timers are those whose deadline is now. */
  lemma {:induction false} DueTimers(c: Chain, now: nat, i: nat)
    requires i < |c|
    ensures Timers(c, now)[i].0 == c[i].id
    ensures if i < DueCount(c) then Timers(c, now)[i].1 == now else Timers(c, now)[i].1 > now
  {
    TimersLate(c, now, i);
    if c[0].delta == 0 && i > 0 {
      DueTimers(c[1..], now, i - 1);
    }
  }

  /** The deadlines of timers inserted now. */
  function Deadlines(news: seq<(Id, Interval)>, now: nat): multiset<Timer>
    decreases |news|
  {
    if news == [] then multiset{} else multiset{(news[0].0, now + news[0].1)} + Deadlines(news[1..], now)
  }

  /** The deadlines that the routines of some timers set. */
  function Reloads(fired: seq<Id>, routines: Routines, now: nat): multiset<Timer> {
    if fired == [] then multiset{} else Deadlines(routines(fired[0]), now) + Reloads(fired[1..], routines, now)
  }

  lemma InsertBehind(ts: seq<Timer>, p: nat, x: Timer, k: nat)
    requires k <= p <= |ts|
    ensures multiset((ts[..p] + [x] + ts[p..])[k..]) == multiset(ts[k..]) + multiset{x}
  {
    assert (ts[..p] + [x] + ts[p..])[k..] == ts[k..p] + [x] + ts[p..];
    assert ts[k..] == ts[k..p] + ts[p..];
  }

  lemma ReloadOne(id: Id, routines: Routines, now: nat)
    ensures Reloads([id], routines, now) == Deadlines(routines(id), now)
  {
    assert [id][1..] == [];
  }

  lemma ReloadFirst(id: Id, rest: seq<Id>, routines: Routines, now: nat)
    ensures Reloads([id] + rest, routines, now) == Reloads([id], routines, now) + Reloads(rest, routines, now)
  {
    ReloadOne(id, routines, now);
    assert ([id] + rest)[1..] == rest;
  }

  lemma TimersTail(c: Chain, now: nat, k: nat)
    requires 1 <= k <= |c| && c[0].delta == 0
    ensures Timers(c, now)[k..] == Timers(c[1..], now)[k - 1..]
  {
    assert Timers(c, now)[1..] == Timers(c[1..], now);
  }

  /** A timer inserted for later goes behind the first `k` due ones. */
  lemma ReloadTimer(c: Chain, id: Id, left: nat, now: nat, k: nat)
    requires left > 0 && k == DueCount(c)
    ensures k <= |c| && k <= |Inserted(c, id, left)|
    ensures multiset(Timers(Inserted(c, id, left), now)[k..]) == multiset(Timers(c, now)[k..]) + multiset{(id, now + left)}
  {
    hide Timers, Inserted, Place, DueCount;
    InsertedKeepsDue(c, id, left);
    InsertedTimers(c, id, left, now);
    InsertBehind(Timers(c, now), Place(c, left), (id, now + left), k);
  }

  lemma {:induction false} ReloadTimers(c: Chain, news: seq<(Id, Interval)>, now: nat, k: nat)
    requires k == DueCount(c)
    ensures k <= |c| && k <= |InsertedAll(c, news)|
    ensures multiset(Timers(InsertedAll(c, news), now)[k..]) == multiset(Timers(c, now)[k..]) + Deadlines(news, now)
    decreases |news|
  {
    hide Timers, Inserted, DueCount;
    DueCountBound(c);
    if news != [] {
      var c1 := Inserted(c, news[0].0, news[0].1);
      InsertedKeepsDue(c, news[0].0, news[0].1);
      ReloadTimer(c, news[0].0, news[0].1, now, k);
      ReloadTimers(c1, news[1..], now, k);
    }
  }

  /** Behind the due timers, the first routine changes the deadlines by its own. */
  lemma RoutineTimers(c: Chain, routines: Routines, now: nat, k: nat, c1: Chain)
    requires c != [] && c[0].delta == 0 && k == DueCount(c) && c1 == AfterRoutine(Removed(c, 0), c[0].id, routines)
    ensures 1 <= k <= |c| && k - 1 <= |c1|
    ensures multiset(Timers(c1, now)[k - 1..]) == multiset(Timers(c, now)[k..]) + Reloads([c[0].id], routines, now)
  {
    hide Timers, InsertedAll, Reloads, Removed, DueCount;
    RoutineKeepsDue(c, routines);
    TimersTail(c, now, k);
    ReloadOne(c[0].id, routines, now);
    ReloadTimers(c[1..], routines(c[0].id), now, k - 1);
  }

  function Ids(c: Chain): seq<Id> { seq(|c|, i requires 0 <= i < |c| => c[i].id) }

  lemma IdsFirst(c: Chain, k: nat)
    requires 1 <= k <= |c|
    ensures Ids(c[..k]) == [c[0].id] + Ids(c[1..k])
  {
  }

  lemma FireDueFirst(c: Chain, routines: Routines, c1: Chain)
    requires c != [] && c[0].delta == 0 && c1 == AfterRoutine(Removed(c, 0), c[0].id, routines)
    ensures FireDue(c, routines) == Outcome(FireDue(c1, routines).chain, [c[0].id] + FireDue(c1, routines).fired)
  {
  }

  /** The step of `FireDueTimers`, on the deadlines alone. */
  lemma Regroup(after: multiset<Timer>, middle: multiset<Timer>, before: multiset<Timer>, one: multiset<Timer>,
                rest: multiset<Timer>, all: multiset<Timer>)
    requires after == middle + rest && middle == before + one && all == one + rest
    ensures after == before + all
  {
  }

  /** Each due timer fires once, in chain order, and sets its next deadline; the others keep theirs. */
  lemma {:induction false} FireDueTimers(c: Chain, routines: Routines, now: nat, k: nat)
    requires k == DueCount(c)
    ensures k <= |c|
    ensures FireDue(c, routines).fired == Ids(c[..k])
    ensures multiset(Timers(FireDue(c, routines).chain, now))
            == multiset(Timers(c, now)[k..]) + Reloads(FireDue(c, routines).fired, routines, now)
    decreases k
  {
    DueCountBound(c);
    if k == 0 {
      assert Timers(c, now)[0..] == Timers(c, now);
    } else {
      FireMore(c, routines, now, k);
    }
  }

  lemma {:induction false} FireMore(c: Chain, routines: Routines, now: nat, k: nat)
    requires 0 < k == DueCount(c) <= |c|
    ensures FireDue(c, routines).fired == Ids(c[..k])
    ensures multiset(Timers(FireDue(c, routines).chain, now))
            == multiset(Timers(c, now)[k..]) + Reloads(FireDue(c, routines).fired, routines, now)
    decreases k, 0
  {
    assert c[0].delta == 0;
    hide Timers, AfterRoutine, Removed, Inserted, FireDue, Reloads, DueCount, Ids;
    var id, c1 := c[0].id, AfterRoutine(Removed(c, 0), c[0].id, routines);
    RoutineKeepsDue(c, routines);
    RoutineTimers(c, routines, now, k, c1);
    FireDueTimers(c1, routines, now, k - 1);
    FireDueFirst(c, routines, c1);
    var rest := FireDue(c1, routines).fired;
    ReloadFirst(id, rest, routines, now);
    IdsFirst(c, k);
    Regroup(multiset(Timers(FireDue(c1, routines).chain, now)), multiset(Timers(c1, now)[k - 1..]), multiset(Timers(c, now)[k..]),
            Reloads([id], routines, now), Reloads(rest, routines, now), Reloads([id] + rest, routines, now));
  }

  /** How many timers the next tick fires. */
  function NextCount(c: Chain): nat {
    if c == [] || c[0].delta == 0 then 0 else DueCount(LowerFirst(c, 1))
  }

  /**
    One tick at time `now`: the timers whose deadline is `now + 1` fire, each once and in
    chain order, and their routines set new deadlines; every other deadline stays.
   */
  lemma TickTimers(c: Chain, routines: Routines, now: nat)
    requires Settled(c)
    ensures var k := NextCount(c);
            var o := Tickled(c, routines);
            && k <= |c|
            && o.fired == Ids(c[..k])
            && (forall i :: 0 <= i < |c| ==> (i < k <==> Timers(c, now)[i].1 == now + 1))
            && multiset(Timers(o.chain, now + 1)) == multiset(Timers(c, now)[k..]) + Reloads(o.fired, routines, now + 1)
  {
    if c != [] {
      var c' := LowerFirst(c, 1);
      var k := DueCount(c');
      hide Timers, FireDue, Reloads, DueCount;
      LowerFirstTimers(c, 1, now);
      FireDueTimers(c', routines, now + 1, k);
      assert Ids(c'[..k]) == Ids(c[..k]);
      forall i | 0 <= i < |c|
        ensures i < k <==> Timers(c, now)[i].1 == now + 1
      {
        DueTimers(c', now + 1, i);
      }
    } else {
      assert Ids(c[..0]) == [];
    }
  }

  // ------------------------------------------------------------ where a timer goes

  /**
    An insertion in terms of deadlines: the timers before it are due no later, those after
    it no earlier, and of those before it only the last can be due at the same time; if it
    is not, every timer after it is due later.
   */
  lemma {:induction false} PlaceInDeadlines(c: Chain, left: nat, now: nat)
    requires left > 0
    ensures var ts, p := Timers(c, now), Place(c, left);
            && (forall i :: 0 <= i < p ==> ts[i].1 <= now + left)
            && (forall i :: 0 <= i < p - 1 ==> ts[i].1 < now + left)
            && (forall i :: p <= i < |c| ==> ts[i].1 >= now + left)
            && (p == 0 || ts[p - 1].1 < now + left ==> forall i :: p <= i < |c| ==> ts[i].1 > now + left)
  {
    var ts, p := Timers(c, now), Place(c, left);
    if p == 0 {
      forall i | 0 <= i < |c|
        ensures ts[i].1 > now + left
      {
        TimersLate(c, now, i);
      }
    } else {
      var d := c[0].delta;
      var rest := Timers(c[1..], now + d);
      assert forall i :: 0 < i < |c| ==> ts[i] == rest[i - 1];
      if left == d {
        forall i | 1 <= i < |c|
          ensures ts[i].1 >= now + left
        {
          TimersLate(c[1..], now + d, i - 1);
        }
      } else {
        PlaceInDeadlines(c[1..], left - d, now + d);
      }
    }
  }

  /** Some timer of the chain, from index `k` on, has this deadline. */
  predicate HasDeadline(ts: seq<Timer>, deadline: nat, k: nat) {
    exists i :: k <= i < |ts| && ts[i].1 == deadline
  }

  /** At most one timer has this deadline. */
  predicate AtMostOne(ts: seq<Timer>, deadline: nat) {
    forall i, j :: 0 <= i < j < |ts| && ts[i].1 == deadline ==> ts[j].1 != deadline
  }

  /**
    A new timer goes behind all those of its own deadline, and so fires after them, exactly
    when at most one timer has that deadline already.
   */
  lemma FirstInFirstOutIff(c: Chain, left: nat, now: nat)
    requires left > 0
    ensures !HasDeadline(Timers(c, now), now + left, Place(c, left)) <==> AtMostOne(Timers(c, now), now + left)
  {
    hide Timers, Place;
    var ts, p := Timers(c, now), Place(c, left);
    PlaceInDeadlines(c, left, now);
    if HasDeadline(ts, now + left, p) {
      var i :| p <= i < |ts| && ts[i].1 == now + left;
      assert ts[p - 1].1 == now + left;
    }
  }

  /** Such a chain: of three timers of one deadline the third goes between the first two. */
  lemma NotFirstInFirstOut(n: nat)
    requires n > 0
    ensures Inserted(Inserted(Inserted([], 1, n), 2, n), 3, n) == [Node(1, n), Node(3, 0), Node(2, 0)]
  {
    assert Inserted([], 1, n) == [Node(1, n)];
    assert Inserted([Node(1, n)], 2, n) == [Node(1, n), Node(2, 0)];
    var c := [Node(1, n), Node(2, 0)];
    assert c[1..] == [Node(2, 0)];
    assert Inserted(c[1..], 3, 0) == [Node(3, 0), Node(2, 0)];
  }

  /** A chain stays settled under an insertion exactly when the interval is not zero. */
  lemma SettledIff(c: Chain, id: Id, left: nat)
    requires Settled(c)
    ensures Settled(Inserted(c, id, left)) <==> left > 0
  {
  }

  /**
    A zero interval on any chain: the next tick fires nothing, wraps the new timer's delta
    around, and so puts every deadline, its own and all others, 2^32 ticks later than an
    insertion for the present moment would.
   */
  lemma ZeroIntervalWraps(c: Chain, id: Id, routines: Routines, now: nat)
    ensures var o := Tickled(Inserted(c, id, 0), routines);
            && o == Outcome([Node(id, MAX_INTERVAL)] + c, [])
            && Timers(o.chain, now + 1) == [(id, now + MAX_INTERVAL + 1)] + Timers(c, now + MAX_INTERVAL + 1)
  {
    assert Inserted(c, id, 0)[0 := Node(id, MAX_INTERVAL)] == [Node(id, MAX_INTERVAL)] + c;
    assert ([Node(id, MAX_INTERVAL)] + c)[1..] == c;
  }
}

/** The routines of the watchdog handler on a chain they change in place, without interrupts. */
module WatchdogHandler {
  import opened Watchdog

  class Handler {
    /** What the routines of the timers insert. */
    const routines: Routines
    var chain: Chain
    /** The routines called so far. */
    ghost var fired: seq<Id>

    constructor (routines: Routines)
      ensures this.routines == routines && chain == [] && fired == []
    {
      this.routines := routines;
      chain, fired := [], [];
    }

    /** `_Watchdog_Insert` */
    method Insert(id: Id, initial: nat)
      modifies this`chain
      ensures chain == Inserted(old(chain), id, initial)
    {
      hide Inserted;
      var after: nat, left: nat := 0, initial;
      assert chain[0..] == chain && chain[..0] + Inserted(chain, id, left) == Inserted(chain, id, left);
      while left != 0 && after < |chain| && left >= chain[after].delta
        invariant after <= |chain| && chain == old(chain)
        invariant Inserted(chain, id, initial) == chain[..after] + Inserted(chain[after..], id, left)
        decreases |chain| - after
      {
        InsertedBehind(chain, id, left, after);
        left := left - chain[after].delta;
        after := after + 1;
      }
      InsertedHere(chain, id, left, after);
      if left != 0 && after < |chain| {
        chain := chain[after := Node(chain[after].id, chain[after].delta - left)];
      }
      chain := chain[..after] + [Node(id, left)] + chain[after..];
    }

    /** `_Watchdog_Remove` of an active watchdog, the `k`th of the chain. */
    method Remove(k: nat)
      requires k < |chain|
      modifies this`chain
      ensures chain == Removed(old(chain), k)
    {
      if k + 1 < |chain| {
        chain := chain[k + 1 := Node(chain[k + 1].id, chain[k + 1].delta + chain[k].delta)];
      }
      chain := chain[..k] + chain[k + 1..];
    }

    /** `_Watchdog_Tickle` */
    method Tickle()
      modifies this`chain, this`fired
      ensures chain == Tickled(old(chain), routines).chain
      ensures fired == old(fired) + Tickled(old(chain), routines).fired
    {
      if chain == [] {
        return;
      }
      var delta := if chain[0].delta == 0 then MAX_INTERVAL else chain[0].delta - 1;
      chain := chain[0 := Node(chain[0].id, delta)];
      if delta != 0 {
        return;
      }
      FireLoop();
    }

    /** The routine of a timer that fired. */
    method CallRoutine(id: Id)
      modifies this`chain
      ensures chain == AfterRoutine(old(chain), id, routines)
    {
      hide Inserted;
      var news := routines(id);
      var i := 0;
      assert news[0..] == news;
      while i < |news|
        invariant 0 <= i <= |news|
        invariant InsertedAll(chain, news[i..]) == InsertedAll(old(chain), news)
      {
        assert news[i..][1..] == news[i + 1..];
        Insert(news[i].0, news[i].1);
        i := i + 1;
      }
    }

    /** The loop at the end of `_Watchdog_Tickle`. */
    method FireLoop()
      modifies this`chain, this`fired
      ensures chain == FireDue(old(chain), routines).chain && fired == old(fired) + FireDue(old(chain), routines).fired
    {
      hide FireDue, InsertedAll, Removed, DueCount;
      ghost var c := chain;
      ghost var log: seq<Id> := [];
      while chain != [] && chain[0].delta == 0
        invariant fired == old(fired) + log
        invariant FireDue(c, routines).chain == FireDue(chain, routines).chain
        invariant FireDue(c, routines).fired == log + FireDue(chain, routines).fired
        decreases DueCount(chain)
      {
        RoutineKeepsDue(chain, routines);
        FireDueFirst(chain, routines, AfterRoutine(Removed(chain, 0), chain[0].id, routines));
        var id := chain[0].id;
        Remove(0);
        fired, log := fired + [id], log + [id];
        CallRoutine(id);
      }
      FireDueNone(chain, routines);
    }

    /** `_Watchdog_Adjust` forward; on a settled chain it does what as many ticks do. */
    method AdjustForward(units: nat)
      modifies this`chain, this`fired
      ensures chain == Forward(old(chain), units, routines).chain
      ensures fired == old(fired) + Forward(old(chain), units, routines).fired
      ensures Settled(old(chain)) ==> chain == Ticks(old(chain), units, routines).chain
      ensures Settled(old(chain)) ==> fired == old(fired) + Ticks(old(chain), units, routines).fired
    {
      hide Ticks, Tickled, Forward;
      ghost var c := chain;
      ghost var log: seq<Id> := [];
      var left: nat := units;
      while left != 0 && chain != [] && left >= chain[0].delta
        invariant fired == old(fired) + log
        invariant Forward(c, units, routines).chain == Forward(chain, left, routines).chain
        invariant Forward(c, units, routines).fired == log + Forward(chain, left, routines).fired
        decreases left, !Settled(chain)
      {
        ForwardJump(chain, left, routines);
        left := left - chain[0].delta;
        chain := chain[0 := Node(chain[0].id, 1)];
        TickledSettles(chain, routines);
        log := log + Tickled(chain, routines).fired;
        Tickle();
      }
      ForwardRest(chain, left, routines);
      if Settled(c) {
        ForwardIsTicks(c, units, routines);
      }
      if left != 0 && chain != [] {
        chain := chain[0 := Node(chain[0].id, chain[0].delta - left)];
      }
    }

    /**
      `_Watchdog_Adjust` backward, in 32 bits: every timer is delayed alike, unless the delta
      of the first wraps around, and then every timer is that much early instead.
     */
    method AdjustBackward(units: nat)
      requires units <= MAX_INTERVAL && (chain != [] ==> chain[0].delta <= MAX_INTERVAL)
      modifies this`chain
      ensures old(chain) == [] || old(chain[0].delta) + units <= MAX_INTERVAL ==>
                Timers(chain, 0) == Timers(old(chain), units)
      ensures old(chain) != [] && old(chain[0].delta) + units > MAX_INTERVAL ==>
                Timers(chain, MAX_INTERVAL + 1) == Timers(old(chain), units)
    {
      if chain != [] {
        ghost var rest := chain[1..];
        var delta := chain[0].delta + units;
        chain := chain[0 := Node(chain[0].id, if delta > MAX_INTERVAL then delta - MAX_INTERVAL - 1 else delta)];
        assert chain[1..] == rest;
      }
    }
  }

  lemma InsertedBehind(c: Chain, id: Id, left: nat, after: nat)
    requires left != 0 && after < |c| && left >= c[after].delta
    ensures c[..after] + Inserted(c[after..], id, left) == c[..after + 1] + Inserted(c[after + 1..], id, left - c[after].delta)
  {
    assert c[after..][1..] == c[after + 1..];
    assert c[..after + 1] == c[..after] + [c[after]];
  }

  lemma InsertedHere(c: Chain, id: Id, left: nat, after: nat)
    requires after <= |c| && (left == 0 || after == |c| || left < c[after].delta)
    ensures Inserted(c[after..], id, left)
            == if left != 0 && after < |c|
               then [Node(id, left), Node(c[after].id, c[after].delta - left)] + c[after + 1..]
               else [Node(id, left)] + c[after..]
  {
    if after < |c| {
      assert c[after..][1..] == c[after + 1..];
    }
  }

  lemma FireDueNone(c: Chain, routines: Routines)
    requires c == [] || c[0].delta != 0
    ensures FireDue(c, routines) == Outcome(c, [])
  {
  }

  lemma ForwardJump(c: Chain, n: nat, routines: Routines)
    requires c != [] && n > 0 && n >= c[0].delta
    ensures var o := Tickled(c[0 := Node(c[0].id, 1)], routines);
            && Settled(o.chain)
            && Forward(c, n, routines).chain == Forward(o.chain, n - c[0].delta, routines).chain
            && Forward(c, n, routines).fired == o.fired + Forward(o.chain, n - c[0].delta, routines).fired
  {
    hide Tickled;
    TickledSettles(c[0 := Node(c[0].id, 1)], routines);
  }

  lemma ForwardRest(c: Chain, n: nat, routines: Routines)
    requires n == 0 || c == [] || n < c[0].delta
    ensures Forward(c, n, routines)
            == Outcome(if n == 0 || c == [] then c else c[0 := Node(c[0].id, c[0].delta - n)], [])
  {
  }
}

/**
  The interrupt-driven output side of the terminal driver: a thread puts bytes into a
  ring, the device drains it a contiguous run at a time.
 */
module OutputRing {
  import opened Basics

  const SIZE := 64

  datatype Transmitter = Idle | Busy | Wait

  datatype Ring = Ring(buffer: seq<Byte>, head: nat, tail: nat, state: Transmitter)

  /** A run of slots handed to the device's write routine. */
  datatype Slots = Slots(start: nat, count: nat)

  /** What a critical section did besides changing the ring. */
  datatype Outcome = Outcome(ring: Ring, handed: Option<Slots>, flag: bool)

  predicate ValidRing(r: Ring) {
    |r.buffer| == SIZE && r.head < SIZE && r.tail < SIZE
  }

  /** One pass of the loop of `osend`; `flag` says whether the byte was placed. */
  function PutSection(r: Ring, c: Byte): (o: Outcome)
    requires ValidRing(r)
    ensures ValidRing(o.ring)
  {
    var newHead := (r.head + 1) % SIZE;
    if newHead == r.tail then
      Outcome(r.(state := Wait), None, false)
    else
      var r' := r.(buffer := r.buffer[r.head := c], head := newHead);
      if r.state == Idle then Outcome(r'.(state := Busy), Some(Slots(r.tail, 1)), true)
      else Outcome(r', None, true)
  }

  /** One pass of the loop of `drainOutput`; `flag` says whether the ring was empty. */
  function DrainSection(r: Ring): Outcome
  {
    if r.tail != r.head then Outcome(r.(state := Wait), None, false) else Outcome(r, None, true)
  }

  /** `rtems_termios_dequeue_characters`; `flag` says whether a waiting thread is released. */
  function Dequeue(r: Ring, len: nat): (o: Outcome)
    requires ValidRing(r)
    ensures ValidRing(o.ring)
  {
    var release := r.state == Wait;
    if r.head == r.tail then Outcome(r, None, release)
    else
      var newTail := (r.tail + len) % SIZE;
      if newTail == r.head then Outcome(r.(state := Idle, tail := newTail), None, release)
      else
        var count := if newTail > r.head then SIZE - newTail else r.head - newTail;
        Outcome(r.(state := Busy, tail := newTail), Some(Slots(newTail, count)), release)
  }

  /** The sections as assignments to the driver's own buffer and indices. */
  class Driver {
    const rawOutBuf: array<Byte>
    var head: nat
    var tail: nat
    var state: Transmitter

    constructor ()
      ensures Valid() && fresh(rawOutBuf)
      ensures head == tail == 0 && state == Idle
    {
      rawOutBuf := new Byte[SIZE](i => 0);
      head, tail, state := 0, 0, Idle;
    }

    predicate Valid()
      reads this
    {
      rawOutBuf.Length == SIZE && head < SIZE && tail < SIZE
    }

    function View(): (r: Ring)
      requires Valid()
      reads this, rawOutBuf
      ensures ValidRing(r)
    {
      Ring(rawOutBuf[..], head, tail, state)
    }

    method Put(c: Byte) returns (handed: Option<Slots>, placed: bool)
      requires Valid()
      modifies this, rawOutBuf
      ensures Valid() && Outcome(View(), handed, placed) == PutSection(old(View()), c)
    {
      handed := None;
      var newHead := (head + 1) % SIZE;
      if newHead == tail {
        state := Wait;
        placed := false;
        return;
      }
      rawOutBuf[head] := c;
      head := newHead;
      if state == Idle {
        handed := Some(Slots(tail, 1));
        state := Busy;
      }
      placed := true;
    }

    method Drain() returns (empty: bool)
      requires Valid()
      modifies this
      ensures Valid() && Outcome(View(), None, empty) == DrainSection(old(View()))
    {
      if tail != head {
        state := Wait;
        empty := false;
      } else {
        empty := true;
      }
    }

    method DequeueCharacters(len: nat) returns (handed: Option<Slots>, release: bool, toSend: nat)
      requires Valid()
      modifies this
      ensures Valid() && Outcome(View(), handed, release) == Dequeue(old(View()), len)
      ensures toSend == if handed.Some? then handed.value.count else 0
    {
      handed := None;
      release := state == Wait;
      if head == tail {
        toSend := 0;
        return;
      }
      var newTail := (tail + len) % SIZE;
      if newTail == head {
        state := Idle;
        toSend := 0;
      } else {
        if newTail > head {
          toSend := SIZE - newTail;
        } else {
          toSend := head - newTail;
        }
        handed := Some(Slots(newTail, toSend));
        state := Busy;
      }
      tail := newTail;
    }
  }

  // ------------------------------------------------- the driver with its device

  /** The device is idle or has been handed `slots` and has transmitted the first `taken` of them. */
  datatype Device = Quiet | Sending(slots: Slots, taken: nat)

  /** The thread in the driver: between sections, or obtaining the output semaphore. */
  datatype Writer = Running | Obtaining

  /**
    `todo` is what the current write still has to place, `accepted` every byte placed so
    far and `wire` every byte transmitted so far.
   */
  datatype System = System(
    ring: Ring,
    device: Device,
    semaphore: nat,
    writer: Writer,
    todo: seq<Byte>,
    accepted: seq<Byte>,
    wire: seq<Byte>)

  datatype Step =
    | CallWrite(data: seq<Byte>)
    | PutByte
    | DrainCheck
    | Obtain
    | Transmit
    | Interrupt

  predicate Enabled(s: System, step: Step) {
    match step
    case CallWrite(_) => s.writer == Running && s.todo == []
    case PutByte => s.writer == Running && s.todo != []
    case DrainCheck => s.writer == Running && s.todo == []
    case Obtain => s.writer == Obtaining && s.semaphore > 0
    case Transmit => s.device.Sending? && s.device.taken < s.device.slots.count
    case Interrupt => s.device.Sending? && s.device.taken > 0
  }

  /** A run handed over starts a new transmission; the device reads the slots one by one. */
  function Hand(device: Device, handed: Option<Slots>): Device {
    if handed.Some? then Sending(handed.value, 0) else device
  }

  function Next(s: System, step: Step): System
    requires ValidRing(s.ring) && Enabled(s, step)
    requires s.device.Sending? ==> s.device.slots.start + s.device.slots.count <= SIZE
  {
    match step
    case CallWrite(data) => s.(todo := data)
    case PutByte =>
      var o := PutSection(s.ring, s.todo[0]);
      if o.flag then
        s.(ring := o.ring, device := Hand(s.device, o.handed), todo := s.todo[1..], accepted := s.accepted + [s.todo[0]])
      else
        s.(ring := o.ring, writer := Obtaining)
    case DrainCheck =>
      var o := DrainSection(s.ring);
      s.(ring := o.ring, writer := if o.flag then Running else Obtaining)
    case Obtain => s.(semaphore := s.semaphore - 1, writer := Running)
    case Transmit =>
      s.(device := s.device.(taken := s.device.taken + 1),
         wire := s.wire + [s.ring.buffer[s.device.slots.start + s.device.taken]])
    case Interrupt =>
      var o := Dequeue(s.ring, s.device.taken);
      s.(ring := o.ring,
         device := Hand(Quiet, o.handed),
         semaphore := s.semaphore + if o.flag then 1 else 0)
  }

  /** How many bytes the driver knows to be transmitted. */
  function Acked(s: System): int {
    |s.wire| - if s.device.Sending? then s.device.taken else 0
  }

  /** The `k`-th byte ever placed is in slot `k % SIZE` until it is known to be transmitted. */
  predicate Inv(s: System) {
    && ValidRing(s.ring)
    && 0 <= Acked(s) <= |s.accepted| <= Acked(s) + SIZE - 1
    && s.ring.head == |s.accepted| % SIZE
    && s.ring.tail == Acked(s) % SIZE
    && (forall k :: Acked(s) <= k < |s.accepted| ==> s.ring.buffer[k % SIZE] == s.accepted[k])
    && s.wire <= s.accepted
    && (s.ring.state == Idle <==> s.ring.head == s.ring.tail)
    && (s.ring.state == Idle <==> s.device.Quiet?)
    && (s.device.Sending? ==>
          && s.device.slots.start == s.ring.tail
          && 1 <= s.device.slots.count
          && s.device.slots.start + s.device.slots.count <= SIZE
          && Acked(s) + s.device.slots.count <= |s.accepted|
          && s.device.taken <= s.device.slots.count)
    && (s.writer == Obtaining ==> s.semaphore > 0 || s.ring.state == Wait)
  }

  predicate Initial(s: System) {
    && |s.ring.buffer| == SIZE
    && s == System(Ring(s.ring.buffer, 0, 0, Idle), Quiet, 0, Running, [], [], [])
  }

  lemma SlotNext(n: nat, k: nat)
    requires k < SIZE
    ensures (n % SIZE + k) % SIZE == (n + k) % SIZE
  {
  }

  lemma SlotsDiffer(a: nat, b: nat)
    requires a <= b < a + SIZE
    ensures a % SIZE == b % SIZE <==> a == b
  {
  }

  /** A byte is refused exactly when all but one of the slots hold bytes not known to be sent. */
  lemma PutRefused(s: System)
    requires Inv(s) && s.todo != []
    ensures PutSection(s.ring, s.todo[0]).flag <==> |s.accepted| - Acked(s) < SIZE - 1
  {
    SlotNext(|s.accepted|, 1);
    if |s.accepted| + 1 < Acked(s) + SIZE {
      SlotsDiffer(Acked(s), |s.accepted| + 1);
    } else {
      assert |s.accepted| + 1 == Acked(s) + SIZE;
    }
  }

  /** The slot written holds no byte that is still to be sent. */
  lemma PutKeepsUnsent(s: System, k: nat)
    requires Inv(s) && Acked(s) <= k < |s.accepted|
    ensures s.ring.head != k % SIZE
  {
    SlotsDiffer(k, |s.accepted|);
  }

  lemma PutPreserves(s: System)
    requires Inv(s) && Enabled(s, PutByte)
    ensures Inv(Next(s, PutByte))
  {
    var s' := Next(s, PutByte);
    var n := |s.accepted|;
    PutRefused(s);
    if n - Acked(s) < SIZE - 1 {
      assert s'.ring.head == (n + 1) % SIZE by { SlotNext(n, 1); }
      assert s.ring.head == s.ring.tail <==> n == Acked(s) by { SlotsDiffer(Acked(s), n); }
      assert s'.ring.head != s'.ring.tail by { SlotsDiffer(Acked(s), n + 1); }
      forall k | Acked(s) <= k < n + 1
        ensures s'.ring.buffer[k % SIZE] == s'.accepted[k]
      {
        if k < n {
          PutKeepsUnsent(s, k);
        }
      }
    } else {
      assert s.ring.head != s.ring.tail by { SlotsDiffer(Acked(s), n); }
    }
  }

  lemma TransmitPreserves(s: System)
    requires Inv(s) && Enabled(s, Transmit)
    ensures Inv(Next(s, Transmit))
  {
    hide PutSection, DrainSection, Dequeue;
    var s' := Next(s, Transmit);
    var k := Acked(s) + s.device.taken;
    SlotNext(Acked(s), s.device.taken);
    assert s.ring.buffer[k % SIZE] == s.accepted[k];
    assert k == |s.wire| && Acked(s') == Acked(s);
  }

  /** The slots from byte `w` to the end of the ring, or to byte `n`, are contiguous and hold what comes next. */
  lemma ContiguousRun(w: nat, n: nat)
    requires w < n < w + SIZE
    ensures var tail, head := w % SIZE, n % SIZE;
            var count := if tail > head then SIZE - tail else head - tail;
            tail != head && 1 <= count && tail + count <= SIZE && w + count <= n
  {
    SlotsDiffer(w, n);
  }

  lemma InterruptRing(s: System)
    requires Inv(s) && Enabled(s, Interrupt)
    ensures var o := Dequeue(s.ring, s.device.taken);
            && |s.wire| <= |s.accepted|
            && o.ring == s.ring.(tail := |s.wire| % SIZE, state := if |s.wire| == |s.accepted| then Idle else Busy)
            && (o.handed.None? <==> |s.wire| == |s.accepted|)
            && (o.handed.Some? ==>
                  && o.handed.value.start == o.ring.tail && 1 <= o.handed.value.count
                  && o.handed.value.start + o.handed.value.count <= SIZE
                  && |s.wire| + o.handed.value.count <= |s.accepted|)
            && (o.flag <==> s.ring.state == Wait)
            && (o.ring.head == o.ring.tail <==> |s.wire| == |s.accepted|)
  {
    var a, w, n := Acked(s), |s.wire|, |s.accepted|;
    assert a < w <= n < a + SIZE && w - a == s.device.taken;
    SlotNext(a, w - a);
    SlotsDiffer(a, n);
    if w < n {
      ContiguousRun(w, n);
    }
  }

  lemma InterruptPreserves(s: System)
    requires Inv(s) && Enabled(s, Interrupt)
    ensures Inv(Next(s, Interrupt))
  {
    hide Dequeue, PutSection, DrainSection;
    InterruptRing(s);
    assert Acked(Next(s, Interrupt)) == |s.wire|;
  }

  lemma NextPreserves(s: System, step: Step)
    requires Inv(s) && Enabled(s, step)
    ensures Inv(Next(s, step))
  {
    match step
    case PutByte => PutPreserves(s);
    case Transmit => TransmitPreserves(s);
    case Interrupt => InterruptPreserves(s);
    case _ =>
  }

  // ------------------------------------------------------------------- runs

  predicate CanRun(s: System, steps: seq<Step>)
    requires Inv(s)
    decreases |steps|
  {
    steps == [] || (Enabled(s, steps[0]) && (NextPreserves(s, steps[0]); CanRun(Next(s, steps[0]), steps[1..])))
  }

  function Run(s: System, steps: seq<Step>): (s': System)
    requires Inv(s) && CanRun(s, steps)
    ensures Inv(s')
    decreases |steps|
  {
    if steps == [] then s else NextPreserves(s, steps[0]); Run(Next(s, steps[0]), steps[1..])
  }

  function GivenBy(step: Step): seq<Byte> {
    if step.CallWrite? then step.data else []
  }

  /** Every byte the run gives to `osend`, in order. */
  function Given(steps: seq<Step>): seq<Byte> {
    if steps == [] then []
    else GivenBy(steps[0]) + Given(steps[1..])
  }

  lemma NextGiven(s: System, step: Step)
    requires Inv(s) && Enabled(s, step)
    ensures Next(s, step).accepted + Next(s, step).todo == s.accepted + s.todo + GivenBy(step)
  {
    hide Inv;
    if step.PutByte? {
      assert s.todo == [s.todo[0]] + s.todo[1..];
      Regroup(s.accepted, [s.todo[0]], s.todo[1..]);
    }
  }

  lemma {:induction false} RunGiven(s: System, steps: seq<Step>)
    requires Inv(s) && CanRun(s, steps)
    ensures Run(s, steps).accepted + Run(s, steps).todo == s.accepted + s.todo + Given(steps)
    decreases |steps|
  {
    if steps != [] {
      hide Next, Inv, GivenBy;
      NextPreserves(s, steps[0]);
      NextGiven(s, steps[0]);
      RunGiven(Next(s, steps[0]), steps[1..]);
      Regroup(s.accepted + s.todo, GivenBy(steps[0]), Given(steps[1..]));
    }
  }

  lemma Regroup(a: seq<Byte>, b: seq<Byte>, c: seq<Byte>)
    ensures a + b + c == a + (b + c)
  {
  }

  /**
    For every interleaving of writes, drains and transmit interrupts, what is on the wire
    is a prefix of what was given to `osend`, at most 63 placed bytes are unsent, and the
    idle driver has sent everything it accepted.
   */
  lemma OutputIntegrity(init: System, steps: seq<Step>)
    requires Initial(init) && Inv(init) && CanRun(init, steps)
    ensures var s := Run(init, steps);
            && s.wire <= Given(steps)
            && |s.accepted| - |s.wire| <= SIZE - 1
            && (s.ring.state == Idle <==> s.ring.head == s.ring.tail)
            && (s.ring.state == Idle && s.todo == [] ==> s.wire == Given(steps))
  {
    var s := Run(init, steps);
    RunGiven(init, steps);
    assert init.accepted + init.todo + Given(steps) == Given(steps);
    assert s.wire <= s.accepted <= s.accepted + s.todo;
    SlotsDiffer(Acked(s), |s.accepted|);
  }

  /** A drain returns exactly when the device is quiet, and then every byte given to `osend` is on the wire. */
  lemma DrainReturnsIff(init: System, steps: seq<Step>)
    requires Initial(init) && Inv(init) && CanRun(init, steps) && Enabled(Run(init, steps), DrainCheck)
    ensures var s := Run(init, steps);
            && (Next(s, DrainCheck).writer == Running <==> s.device.Quiet?)
            && (Next(s, DrainCheck).writer == Running ==> s.wire == Given(steps))
            && Next(s, DrainCheck).wire == s.wire
  {
    OutputIntegrity(init, steps);
  }

  /** A run in flight is contiguous and holds the next unsent bytes. */
  lemma FlightHoldsUnsent(s: System, j: nat)
    requires Inv(s) && s.device.Sending? && j < s.device.slots.count
    ensures s.device.slots.start + j < SIZE
    ensures s.ring.buffer[s.device.slots.start + j] == s.accepted[Acked(s) + j]
  {
    SlotNext(Acked(s), j);
    var k := Acked(s) + j;
    assert s.ring.buffer[k % SIZE] == s.accepted[k];
  }

  /** The interrupt hands over all that is contiguous: up to the end of the ring or to the last byte placed. */
  lemma FlightIsLongest(s: System)
    requires Inv(s) && Enabled(s, Interrupt)
    ensures var s' := Next(s, Interrupt);
            s'.device.Sending? ==>
              var slots := s'.device.slots;
              slots.start + slots.count == SIZE || slots.start + slots.count == s'.ring.head
  {
  }

  /** No step but the device's own interrupt changes the run it was handed or the bytes in it. */
  lemma FlightUntouched(s: System, step: Step, j: nat)
    requires Inv(s) && Enabled(s, step) && !step.Interrupt?
    requires s.device.Sending? && j < s.device.slots.count
    ensures Next(s, step).device.Sending? && Next(s, step).device.slots == s.device.slots
    ensures Next(s, step).ring.buffer[s.device.slots.start + j] == s.ring.buffer[s.device.slots.start + j]
  {
    if step.PutByte? {
      SlotNext(Acked(s), j);
      PutKeepsUnsent(s, Acked(s) + j);
    }
  }

  /** A thread that waits for room has a token already or a transmission whose interrupt releases one. */
  lemma WriterWillWake(s: System)
    requires Inv(s) && s.writer == Obtaining && s.semaphore == 0
    ensures s.device.Sending?
    ensures s.device.taken > 0 ==> Next(s, Interrupt).semaphore == 1
  {
  }
}

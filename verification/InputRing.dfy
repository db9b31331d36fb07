/**
  The raw input queue of the terminal driver: the receive interrupt puts characters in,
  a reading thread takes them out.  The protocol is modelled at the granularity of
  single accesses to the shared buffer and indices, in any interleaving.
 */
module InputRing {
  import opened Basics

  const SIZE := 128

  /** Slot of the `k`-th character ever queued, counting from 0. */
  function Slot(k: nat): nat {
    (k + 1) % SIZE
  }

  // ------------------------------------------------ the routines of the driver

  function Count(head: nat, tail: nat): (n: nat)
    requires head < SIZE && tail < SIZE
  {
    (tail + SIZE - head) % SIZE
  }

  /** The characters queued and not yet taken, oldest first. */
  function Queued(buffer: seq<Byte>, head: nat, tail: nat): (s: seq<Byte>)
    requires |buffer| == SIZE && head < SIZE && tail < SIZE
  {
    seq(Count(head, tail), i requires 0 <= i < Count(head, tail) => buffer[(head + 1 + i) % SIZE])
  }

  lemma QueuedPut(buffer: seq<Byte>, head: nat, tail: nat, c: Byte)
    requires |buffer| == SIZE && head < SIZE && tail < SIZE && (tail + 1) % SIZE != head
    ensures var newTail := (tail + 1) % SIZE;
            Queued(buffer[newTail := c], head, newTail) == Queued(buffer, head, tail) + [c]
  {
    var newTail := (tail + 1) % SIZE;
    var n := Count(head, tail);
    assert Count(head, newTail) == n + 1;
    assert (head + 1 + n) % SIZE == newTail;
    forall i | 0 <= i < n
      ensures Queued(buffer[newTail := c], head, newTail)[i] == Queued(buffer, head, tail)[i]
    {
      assert (head + 1 + i) % SIZE != newTail;
    }
  }

  lemma StepSlot(head: nat, i: nat)
    requires head < SIZE && i < SIZE
    ensures ((head + 1) % SIZE + 1 + i) % SIZE == (head + 2 + i) % SIZE
  {
  }

  lemma CountTake(head: nat, tail: nat)
    requires head < SIZE && tail < SIZE && head != tail
    ensures Count(head, tail) == Count((head + 1) % SIZE, tail) + 1
  {
  }

  lemma QueuedTake(buffer: seq<Byte>, head: nat, tail: nat)
    requires |buffer| == SIZE && head < SIZE && tail < SIZE && head != tail
    ensures var newHead := (head + 1) % SIZE;
            Queued(buffer, head, tail) == [buffer[newHead]] + Queued(buffer, newHead, tail)
  {
    var newHead := (head + 1) % SIZE;
    var n := Count(head, tail);
    CountTake(head, tail);
    var rest := Queued(buffer, newHead, tail);
    forall i | 0 <= i < n - 1
      ensures rest[i] == buffer[(head + 2 + i) % SIZE]
    {
      StepSlot(head, i);
    }
  }

  /** The ring refuses a character exactly when it holds one less than its size. */
  lemma QueuedFull(buffer: seq<Byte>, head: nat, tail: nat)
    requires |buffer| == SIZE && head < SIZE && tail < SIZE
    ensures (tail + 1) % SIZE == head <==> |Queued(buffer, head, tail)| == SIZE - 1
  {
  }

  class Driver {
    const rawInBuf: array<Byte>
    var head: nat
    var tail: nat
    var dropped: nat

    constructor ()
      ensures Valid() && fresh(rawInBuf) && Contents() == [] && dropped == 0
    {
      rawInBuf := new Byte[SIZE](i => 0);
      head, tail, dropped := 0, 0, 0;
    }

    predicate Valid()
      reads this
    {
      rawInBuf.Length == SIZE && head < SIZE && tail < SIZE
    }

    function Contents(): (s: seq<Byte>)
      requires Valid()
      reads this, rawInBuf
    {
      Queued(rawInBuf[..], head, tail)
    }

    /** `rtems_termios_enqueue_raw_characters`: queues what fits, counts and returns the rest. */
    method EnqueueRaw(buf: seq<Byte>) returns (rest: nat)
      requires Valid()
      modifies this`tail, this`dropped, rawInBuf
      ensures Valid()
      ensures rest <= |buf| && Contents() == old(Contents()) + buf[..|buf| - rest]
      ensures rest > 0 ==> |Contents()| == SIZE - 1
      ensures dropped == old(dropped) + rest
    {
      hide Queued;
      rest := |buf|;
      while rest > 0
        invariant Valid() && rest <= |buf|
        invariant Contents() == old(Contents()) + buf[..|buf| - rest]
        invariant dropped == old(dropped)
      {
        var newTail := (tail + 1) % SIZE;
        if newTail == head {
          QueuedFull(rawInBuf[..], head, tail);
          dropped := dropped + rest;
          break;
        }
        var n := |buf| - rest;
        QueuedPut(rawInBuf[..], head, tail, buf[n]);
        assert buf[..n + 1] == buf[..n] + [buf[n]];
        ghost var before := rawInBuf[..];
        rawInBuf[newTail] := buf[n];
        assert rawInBuf[..] == before[newTail := buf[n]];
        rest := rest - 1;
        tail := newTail;
      }
    }

    /** One pass of the loop of `fillBufferQueue`. */
    method TakeCharacter() returns (c: Byte)
      requires Valid() && head != tail
      modifies this`head
      ensures Valid() && old(Contents()) == [c] + Contents()
    {
      QueuedTake(rawInBuf[..], head, tail);
      var newHead := (head + 1) % SIZE;
      c := rawInBuf[newHead];
      head := newHead;
    }
  }

  // ------------------------------------- interrupt and thread, access by access

  /** The interrupt between accesses: its next access, with what it still has to queue. */
  datatype Producer = Resting | Check(rest: seq<Byte>) | Store(rest: seq<Byte>) | Publish(rest: seq<Byte>)

  /** The reading thread between accesses; `Advance` holds the character it has read. */
  datatype Consumer = Test | Load | Advance(c: Byte)

  /**
    The shared variables, where each side is, and the history: the bursts received, how many
    characters of each were queued, how many characters were returned as dropped, and the
    characters queued and taken.
   */
  datatype System = System(
    buffer: seq<Byte>,
    head: nat,
    tail: nat,
    dropped: nat,
    producer: Producer,
    consumer: Consumer,
    bursts: seq<seq<Byte>>,
    kept: seq<nat>,
    returned: nat,
    accepted: seq<Byte>,
    consumed: seq<Byte>)

  datatype Step = Receive(data: seq<Byte>) | Produce | Consume

  predicate Enabled(s: System, step: Step) {
    match step
    case Receive(_) => s.producer.Resting?
    case Produce => !s.producer.Resting?
    case Consume => true
  }

  /** One more character of the latest burst. */
  function OneMore(kept: seq<nat>): seq<nat> {
    if kept == [] then [] else kept[..|kept| - 1] + [kept[|kept| - 1] + 1]
  }

  function ProduceStep(s: System): System
    requires |s.buffer| == SIZE && !s.producer.Resting?
    requires s.producer.Store? || s.producer.Publish? ==> s.producer.rest != []
  {
    var newTail := (s.tail + 1) % SIZE;
    match s.producer
    case Check(rest) =>
      if rest == [] then s.(producer := Resting)
      else if newTail == s.head then
        s.(producer := Resting, dropped := s.dropped + |rest|, returned := s.returned + |rest|)
      else s.(producer := Store(rest))
    case Store(rest) => s.(producer := Publish(rest), buffer := s.buffer[newTail := rest[0]])
    case Publish(rest) => s.(producer := Check(rest[1..]), tail := newTail, accepted := s.accepted + [rest[0]],
                              kept := OneMore(s.kept))
  }

  function ConsumeStep(s: System): System
    requires |s.buffer| == SIZE
  {
    var newHead := (s.head + 1) % SIZE;
    match s.consumer
    case Test => if s.head != s.tail then s.(consumer := Load) else s
    case Load => s.(consumer := Advance(s.buffer[newHead]))
    case Advance(c) => s.(consumer := Test, head := newHead, consumed := s.consumed + [c])
  }

  function Next(s: System, step: Step): System
    requires Inv(s) && Enabled(s, step)
  {
    match step
    case Receive(data) => s.(producer := Check(data), bursts := s.bursts + [data], kept := s.kept + [0])
    case Produce => ProduceStep(s)
    case Consume => ConsumeStep(s)
  }

  function Unqueued(p: Producer): nat {
    if p.Resting? then 0 else |p.rest|
  }

  predicate Inv(s: System) {
    && |s.buffer| == SIZE
    && |s.consumed| <= |s.accepted| <= |s.consumed| + SIZE - 1
    && s.tail == |s.accepted| % SIZE
    && s.head == |s.consumed| % SIZE
    && s.consumed <= s.accepted
    && (forall k :: |s.consumed| <= k < |s.accepted| ==> s.buffer[Slot(k)] == s.accepted[k])
    && (s.consumer.Load? || s.consumer.Advance? ==> |s.consumed| < |s.accepted|)
    && (s.consumer.Advance? ==> s.consumer.c == s.accepted[|s.consumed|])
    && (s.producer.Store? || s.producer.Publish? ==> s.producer.rest != [] && |s.accepted| < |s.consumed| + SIZE - 1)
    && (s.producer.Publish? ==> s.buffer[Slot(|s.accepted|)] == s.producer.rest[0])
    && s.dropped == s.returned
  }

  predicate Initial(s: System) {
    |s.buffer| == SIZE && s == System(s.buffer, 0, 0, 0, Resting, Test, [], [], 0, [], [])
  }

  lemma SlotsDiffer(a: nat, b: nat)
    requires a <= b < a + SIZE
    ensures a % SIZE == b % SIZE <==> a == b
  {
  }

  lemma IndexSlot(n: nat)
    ensures (n % SIZE + 1) % SIZE == Slot(n)
  {
  }

  lemma StorePreserves(s: System)
    requires Inv(s) && Enabled(s, Produce) && s.producer.Store?
    ensures Inv(Next(s, Produce))
  {
    var n := |s.accepted|;
    IndexSlot(n);
    forall k | |s.consumed| <= k < n
      ensures Slot(k) != Slot(n)
    {
      SlotsDiffer(k + 1, n + 1);
    }
  }

  lemma ProducePreserves(s: System)
    requires Inv(s) && Enabled(s, Produce)
    ensures Inv(Next(s, Produce))
  {
    var n := |s.accepted|;
    IndexSlot(n);
    match s.producer
    case Check(_) =>
      if n + 1 < |s.consumed| + SIZE {
        SlotsDiffer(|s.consumed|, n + 1);
      }
    case Store(_) => StorePreserves(s);
    case Publish(_) =>
  }

  lemma ConsumePreserves(s: System)
    requires Inv(s)
    ensures Inv(Next(s, Consume))
  {
    IndexSlot(|s.consumed|);
    SlotsDiffer(|s.consumed|, |s.accepted|);
  }

  lemma NextPreserves(s: System, step: Step)
    requires Inv(s) && Enabled(s, step)
    ensures Inv(Next(s, step))
  {
    match step
    case Receive(_) =>
    case Produce => ProducePreserves(s);
    case Consume => ConsumePreserves(s);
  }

  predicate CanRun(s: System, steps: seq<Step>)
    requires Inv(s)
    decreases |steps|
  {
    steps == [] || (Enabled(s, steps[0]) && (NextPreserves(s, steps[0]); CanRun(Next(s, steps[0]), steps[1..])))
  }

  function Run(s: System, steps: seq<Step>): System
    requires Inv(s) && CanRun(s, steps)
    decreases |steps|
  {
    if steps == [] then s else NextPreserves(s, steps[0]); Run(Next(s, steps[0]), steps[1..])
  }

  lemma {:induction false} RunPreserves(s: System, steps: seq<Step>)
    requires Inv(s) && CanRun(s, steps)
    ensures Inv(Run(s, steps))
    decreases |steps|
  {
    if steps != [] {
      NextPreserves(s, steps[0]);
      RunPreserves(Next(s, steps[0]), steps[1..]);
    }
  }

  // --------------------------------------------------------- what was received

  /** The first `kept[i]` characters of each burst, one after the other. */
  function Prefixes(bursts: seq<seq<Byte>>, kept: seq<nat>): seq<Byte>
    requires Fitting(bursts, kept)
  {
    if bursts == [] then []
    else
      var n := |bursts| - 1;
      Prefixes(bursts[..n], kept[..n]) + bursts[n][..kept[n]]
  }

  predicate Fitting(bursts: seq<seq<Byte>>, kept: seq<nat>) {
    |bursts| == |kept| && forall i :: 0 <= i < |kept| ==> kept[i] <= |bursts[i]|
  }

  function Offered(bursts: seq<seq<Byte>>): nat {
    if bursts == [] then 0 else Offered(bursts[..|bursts| - 1]) + |bursts[|bursts| - 1]|
  }

  /** What was queued is a prefix of each burst; the interrupt still has the rest of the latest, or all are done. */
  predicate BurstsOk(s: System) {
    && Fitting(s.bursts, s.kept)
    && s.accepted == Prefixes(s.bursts, s.kept)
    && Offered(s.bursts) == |s.accepted| + s.returned + Unqueued(s.producer)
    && (!s.producer.Resting? ==>
          s.bursts != [] && s.producer.rest == s.bursts[|s.bursts| - 1][s.kept[|s.kept| - 1]..])
  }

  function Burst(step: Step): seq<seq<Byte>> {
    if step.Receive? then [step.data] else []
  }

  lemma OneMoreKept(bursts: seq<seq<Byte>>, kept: seq<nat>)
    requires Fitting(bursts, kept) && bursts != [] && kept[|kept| - 1] < |bursts[|bursts| - 1]|
    ensures Fitting(bursts, OneMore(kept))
    ensures Prefixes(bursts, OneMore(kept)) == Prefixes(bursts, kept) + [bursts[|bursts| - 1][kept[|kept| - 1]]]
  {
    var n := |bursts| - 1;
    assert OneMore(kept)[..n] == kept[..n];
    assert bursts[n][..kept[n] + 1] == bursts[n][..kept[n]] + [bursts[n][kept[n]]];
  }

  lemma NewBurst(bursts: seq<seq<Byte>>, kept: seq<nat>, data: seq<Byte>)
    requires Fitting(bursts, kept)
    ensures Fitting(bursts + [data], kept + [0])
    ensures Prefixes(bursts + [data], kept + [0]) == Prefixes(bursts, kept)
    ensures Offered(bursts + [data]) == Offered(bursts) + |data|
  {
    assert (bursts + [data])[..|bursts|] == bursts && (kept + [0])[..|kept|] == kept;
  }

  lemma ProduceBursts(s: System)
    requires Inv(s) && Enabled(s, Produce) && BurstsOk(s)
    ensures BurstsOk(Next(s, Produce)) && Next(s, Produce).bursts == s.bursts
  {
    hide Prefixes, Offered;
    if s.producer.Publish? {
      OneMoreKept(s.bursts, s.kept);
    }
  }

  lemma NextBursts(s: System, step: Step)
    requires Inv(s) && Enabled(s, step) && BurstsOk(s)
    ensures BurstsOk(Next(s, step)) && Next(s, step).bursts == s.bursts + Burst(step)
  {
    hide Inv, Prefixes, Offered;
    match step
    case Receive(data) => NewBurst(s.bursts, s.kept, data);
    case Produce =>
      hide BurstsOk;
      ProduceBursts(s);
    case Consume =>
  }

  /** The bursts that a run receives. */
  function Received(steps: seq<Step>): seq<seq<Byte>> {
    if steps == [] then [] else Burst(steps[0]) + Received(steps[1..])
  }

  lemma Regroup(a: seq<seq<Byte>>, b: seq<seq<Byte>>, c: seq<seq<Byte>>)
    ensures a + b + c == a + (b + c)
  {
  }

  lemma {:induction false} RunBursts(s: System, steps: seq<Step>)
    requires Inv(s) && CanRun(s, steps) && BurstsOk(s)
    ensures BurstsOk(Run(s, steps)) && Run(s, steps).bursts == s.bursts + Received(steps)
    decreases |steps|
  {
    if steps != [] {
      hide BurstsOk, Inv, Next, Burst;
      NextPreserves(s, steps[0]);
      NextBursts(s, steps[0]);
      RunBursts(Next(s, steps[0]), steps[1..]);
      Regroup(s.bursts, Burst(steps[0]), Received(steps[1..]));
    }
  }

  /**
    In every interleaving the characters taken are the characters queued, once each and in
    order, and these are a prefix of each burst received, one burst after the other; at
    most 127 are held; every character received was queued or returned as dropped (or is
    still in the interrupt's hands), and the statistics agree.
   */
  lemma InputIntegrity(init: System, steps: seq<Step>)
    requires Initial(init) && Inv(init) && CanRun(init, steps)
    ensures var s := Run(init, steps);
            && s.consumed <= s.accepted
            && Fitting(Received(steps), s.kept) && s.accepted == Prefixes(Received(steps), s.kept)
            && |s.accepted| - |s.consumed| <= 127
            && Offered(Received(steps)) == |s.accepted| + s.dropped + Unqueued(s.producer)
  {
    RunPreserves(init, steps);
    RunBursts(init, steps);
    assert init.bursts + Received(steps) == Received(steps);
  }

  /** The interrupt drops the rest of a burst exactly when 127 characters are queued. */
  lemma DropsIff(s: System)
    requires Inv(s) && s.producer.Check? && s.producer.rest != []
    ensures var s' := Next(s, Produce);
            if |s.accepted| - |s.consumed| == SIZE - 1
            then s'.producer.Resting? && s'.dropped == s.dropped + |s.producer.rest|
            else s'.producer == Store(s.producer.rest) && s'.dropped == s.dropped
  {
    var n := |s.accepted|;
    IndexSlot(n);
    if n + 1 < |s.consumed| + SIZE {
      SlotsDiffer(|s.consumed|, n + 1);
    }
  }

  /** A character that is queued is taken by the next three accesses of the thread. */
  lemma ConsumerTakes(s: System)
    requires Inv(s) && s.consumer.Test? && |s.consumed| < |s.accepted|
    ensures var s1 := Next(s, Consume);
            Inv(s1) &&
            var s2 := Next(s1, Consume);
            Inv(s2) &&
            var s3 := Next(s2, Consume);
            s3.consumed == s.consumed + [s.accepted[|s.consumed|]] && s3.consumer.Test?
  {
    SlotsDiffer(|s.consumed|, |s.accepted|);
    ConsumePreserves(s);
    var s1 := Next(s, Consume);
    ConsumePreserves(s1);
    var s2 := Next(s1, Consume);
    assert s1.consumer.Load? && s2.consumer.Advance?;
  }

  /** A character that the interrupt has room for is queued by its next two accesses. */
  lemma ProducerQueues(s: System)
    requires Inv(s) && s.producer.Store?
    ensures var s1 := Next(s, Produce);
            Inv(s1) && s1.producer.Publish? &&
            var s2 := Next(s1, Produce);
            s2.accepted == s.accepted + [s.producer.rest[0]] && s2.producer == Check(s.producer.rest[1..])
  {
    StorePreserves(s);
  }
}

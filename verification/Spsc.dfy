/** The ring buffer under concurrency: one producer and one consumer as atomic steps.

    A step loads a position, fixes the block size from a possibly stale view of the other side's
    position, touches one slot, or publishes.  Positions are wrapping 64-bit counters as in the
    code.  `accepted` and `consumed` record what `write` and `read` have completed. */
module Spsc {
  import opened Basics
  import opened Words

  type Sample = x: int | -0x8000 <= x < 0x8000

  datatype Producer =
    | NotWriting
    | WriteCalled(samples: seq<Sample>, own: Word)
    | Writing(samples: seq<Sample>, own: Word, count: Word, done: nat)

  datatype Consumer =
    | NotReading
    | ReadCalled(limit: Word, own: Word)
    | Reading(own: Word, count: Word, out: seq<Sample>)

  datatype Machine = Machine(
    capacity: Word,
    slots: seq<Sample>,
    writePos: Word,
    readPos: Word,
    producer: Producer,
    consumer: Consumer,
    accepted: seq<Sample>,
    consumed: seq<Sample>,
    seenRead: nat,    // how many reads the producer knows to be complete
    seenWritten: nat) // how many writes the consumer knows to be complete

  datatype Event =
    | CallWrite(samples: seq<Sample>)
    | SeeReadPos(taken: nat)      // loads the position the consumer published after that many samples
    | StoreSample
    | PublishWrite
    | CallRead(limit: Word)
    | SeeWritePos(given: nat)
    | LoadSample
    | PublishRead

  /** A power of two, at most 2^63. */
  ghost predicate Rounded(capacity: Word)
  {
    exists k: nat :: k <= 63 && capacity == Pow2(k)
  }

  predicate Shape(m: Machine)
  {
    m.capacity >= 1 && |m.slots| == m.capacity
  }

  function Slot(m: Machine, pos: nat): (i: nat)
    requires Shape(m)
    ensures i < |m.slots|
  {
    And(Wrap(pos), m.capacity - 1)
  }

  /** Each thread may see an old position of the other side, but never one older than it has seen. */
  predicate Enabled(m: Machine, e: Event)
  {
    match e
    case CallWrite(samples) => m.producer.NotWriting? && |samples| < WORD64
    case SeeReadPos(n) => m.producer.WriteCalled? && |m.producer.samples| < WORD64 && m.seenRead <= n <= |m.consumed|
    case StoreSample => m.producer.Writing? && m.producer.done < m.producer.count && m.producer.done < |m.producer.samples|
    case PublishWrite => m.producer.Writing? && m.producer.done == m.producer.count <= |m.producer.samples|
    case CallRead(_) => m.consumer.NotReading?
    case SeeWritePos(n) => m.consumer.ReadCalled? && m.seenWritten <= n <= |m.accepted|
    case LoadSample => m.consumer.Reading? && |m.consumer.out| < m.consumer.count
    case PublishRead => m.consumer.Reading? && |m.consumer.out| == m.consumer.count
  }

  function Apply(m: Machine, e: Event): (m': Machine)
    requires Shape(m) && Enabled(m, e)
    ensures Shape(m')
  {
    var p, c := m.producer, m.consumer;
    match e
    case CallWrite(samples) => m.(producer := WriteCalled(samples, m.writePos))
    case SeeReadPos(n) =>
      var avail := Sub(m.capacity, Sub(p.own, Wrap(n)));
      m.(producer := Writing(p.samples, p.own, Min(|p.samples|, avail), 0), seenRead := n)
    case StoreSample =>
      m.(slots := m.slots[Slot(m, p.own as nat + p.done) := p.samples[p.done]],
         producer := p.(done := p.done + 1))
    case PublishWrite =>
      m.(writePos := Wrap(p.own as nat + p.count), accepted := m.accepted + p.samples[..p.count], producer := NotWriting)
    case CallRead(limit) => m.(consumer := ReadCalled(limit, m.readPos))
    case SeeWritePos(n) =>
      var avail := Sub(Wrap(n), c.own);
      m.(consumer := Reading(c.own, Min(c.limit, avail), []), seenWritten := n)
    case LoadSample =>
      m.(consumer := c.(out := c.out + [m.slots[Slot(m, c.own as nat + |c.out|)]]))
    case PublishRead =>
      m.(readPos := Wrap(c.own as nat + c.count), consumed := m.consumed + c.out, consumer := NotReading)
  }

  ghost predicate Initial(m: Machine)
  {
    Rounded(m.capacity) &&
    exists slots: seq<Sample> :: |slots| == m.capacity &&
      m == Machine(m.capacity, slots, 0, 0, NotWriting, NotReading, [], [], 0, 0)
  }

  // ----- The invariant -----

  ghost predicate Counters(m: Machine)
  {
    Shape(m) && Rounded(m.capacity) &&
    m.writePos == Wrap(|m.accepted|) && m.readPos == Wrap(|m.consumed|) &&
    m.seenRead <= |m.consumed| <= m.seenWritten <= |m.accepted| <= m.seenRead + m.capacity
  }

  /** The slot of a sample, counted from the start of time. */
  function At(m: Machine, i: nat): Sample
    requires Shape(m)
  {
    m.slots[i % m.capacity]
  }

  ghost predicate Contents(m: Machine)
    requires Shape(m)
  {
    m.consumed <= m.accepted &&
    forall i :: |m.consumed| <= i < |m.accepted| ==> At(m, i) == m.accepted[i]
  }

  ghost predicate ProducerOk(m: Machine)
    requires Shape(m)
  {
    match m.producer
    case NotWriting => true
    case WriteCalled(samples, own) => own == m.writePos && |samples| < WORD64
    case Writing(samples, own, count, done) =>
      own == m.writePos && done <= count <= |samples| &&
      |m.accepted| + count <= m.seenRead + m.capacity &&
      forall j :: 0 <= j < done ==> At(m, |m.accepted| + j) == samples[j]
  }

  ghost predicate ConsumerOk(m: Machine)
    requires Shape(m)
  {
    match m.consumer
    case NotReading => true
    case ReadCalled(_, own) => own == m.readPos
    case Reading(own, count, out) =>
      own == m.readPos && |out| <= count && |m.consumed| + count <= m.seenWritten <= |m.accepted| &&
      out == m.accepted[|m.consumed|..|m.consumed| + |out|]
  }

  ghost predicate Inv(m: Machine)
  {
    Counters(m) && Contents(m) && ProducerOk(m) && ConsumerOk(m)
  }

  // ----- Arithmetic -----

  lemma RoundedIsSmall(capacity: Word)
    requires Rounded(capacity)
    ensures 1 <= capacity <= WORD64 / 2
  {
    var k: nat :| k <= 63 && capacity == Pow2(k);
    WordIsPow2();
    var top := 63;
    Pow2Monotone(k, top);
  }

  /** The masked wrapping position is the unbounded position modulo the capacity. */
  lemma SlotIsModulo(m: Machine, own: Word, n: nat, i: nat)
    requires Shape(m) && Rounded(m.capacity) && own == Wrap(n)
    ensures Slot(m, own as nat + i) == (n + i) % m.capacity
  {
    var k: nat :| k <= 63 && m.capacity == Pow2(k);
    WrapShift(n, i);
    MaskIgnoresWrap(n + i, k);
  }

  lemma DistinctSlots(i: nat, j: nat, capacity: nat)
    requires i < j < i + capacity
    ensures i % capacity != j % capacity
  {
    if i % capacity == j % capacity {
      var q, q' := i / capacity, j / capacity;
      Distribute(q', q, capacity);
      if q' > q { AtLeastOnce(q' - q, capacity); }
      assert i == q * capacity + i % capacity && j == q' * capacity + j % capacity;
      if q' < q { AtLeastOnce(q - q', capacity); Distribute(q, q', capacity); }
    }
  }

  // ----- Preservation -----

  lemma InitialInv(m: Machine)
    requires Initial(m)
    ensures Inv(m)
  {
    RoundedIsSmall(m.capacity);
  }

  /** A store puts its sample behind everything unread and touches nothing else that matters. */
  lemma StoreFrame(m: Machine)
    requires Inv(m) && Enabled(m, StoreSample)
    ensures var m', target := Apply(m, StoreSample), |m.accepted| + m.producer.done;
            && At(m', target) == m.producer.samples[m.producer.done]
            && forall i: nat :: |m.consumed| <= i < target ==> At(m', i) == At(m, i)
  {
    hide And, Pow2, Sub, Rounded;
    var p, target := m.producer, |m.accepted| + m.producer.done;
    SlotIsModulo(m, p.own, |m.accepted|, p.done);
    UpdateFrame(m.slots, |m.consumed|, target, p.samples[p.done]);
  }

  lemma UpdateFrame(slots: seq<Sample>, low: nat, target: nat, x: Sample)
    requires low <= target < low + |slots|
    ensures var slots' := slots[target % |slots| := x];
            forall i: nat :: low <= i < target ==> slots'[i % |slots|] == slots[i % |slots|]
  {
    forall i: nat | low <= i < target ensures i % |slots| != target % |slots| {
      DistinctSlots(i, target, |slots|);
    }
  }

  lemma StoreKeepsContents(m: Machine)
    requires Inv(m) && Enabled(m, StoreSample)
    ensures Contents(Apply(m, StoreSample))
  {
    StoreFrame(m);
    hide And, Pow2, Sub, Rounded, At, ProducerOk, ConsumerOk;
  }

  lemma StoreKeepsProducer(m: Machine)
    requires Inv(m) && Enabled(m, StoreSample)
    ensures ProducerOk(Apply(m, StoreSample))
  {
    StoreFrame(m);
    hide And, Pow2, Sub, Rounded, At, Contents, ConsumerOk;
    var p, m' := m.producer, Apply(m, StoreSample);
    forall j | 0 <= j < p.done + 1 ensures At(m', |m.accepted| + j) == p.samples[j] {
      assert j < p.done ==> At(m', |m.accepted| + j) == At(m, |m.accepted| + j);
    }
  }

  lemma StorePreserves(m: Machine)
    requires Inv(m) && Enabled(m, StoreSample)
    ensures Inv(Apply(m, StoreSample))
  {
    StoreKeepsContents(m);
    StoreKeepsProducer(m);
    hide And, Pow2, Sub, Rounded, At, Contents;
  }

  lemma SameContents(m: Machine, m': Machine)
    requires Shape(m) && Shape(m') && m.slots == m'.slots
    requires m.consumed == m'.consumed && m.accepted == m'.accepted
    requires Contents(m)
    ensures Contents(m')
  {
    forall i | |m.consumed| <= i < |m.accepted| ensures At(m', i) == m.accepted[i] {
      SameSlots(m, m', i);
    }
  }

  lemma SameProducer(m: Machine, m': Machine)
    requires Shape(m) && Shape(m') && m.slots == m'.slots && m.accepted == m'.accepted
    requires m.producer == m'.producer && m.writePos == m'.writePos && m.seenRead == m'.seenRead
    requires ProducerOk(m)
    ensures ProducerOk(m')
  {
    forall i: nat ensures At(m', i) == At(m, i) {
      SameSlots(m, m', i);
    }
  }

  lemma SeeReadPreserves(m: Machine, n: nat)
    requires Inv(m) && Enabled(m, SeeReadPos(n))
    ensures Inv(Apply(m, SeeReadPos(n)))
    ensures var m' := Apply(m, SeeReadPos(n));
            m'.producer.count == Min(|m.producer.samples|, m.capacity - (|m.accepted| - n))
  {
    RoundedIsSmall(m.capacity);
    WrappedDistance(|m.accepted|, n);
    SameContents(m, Apply(m, SeeReadPos(n)));
    hide And, Pow2, Rounded, Contents, At;
  }

  lemma SeeWritePreserves(m: Machine, n: nat)
    requires Inv(m) && Enabled(m, SeeWritePos(n))
    ensures Inv(Apply(m, SeeWritePos(n)))
    ensures var m' := Apply(m, SeeWritePos(n));
            m'.consumer.count == Min(m.consumer.limit, n - |m.consumed|)
  {
    RoundedIsSmall(m.capacity);
    WrappedDistance(n, |m.consumed|);
    SameContents(m, Apply(m, SeeWritePos(n)));
    SameProducer(m, Apply(m, SeeWritePos(n)));
    hide And, Pow2, Rounded, Contents, At, ProducerOk;
  }

  lemma PublishKeepsContents(m: Machine)
    requires Inv(m) && Enabled(m, PublishWrite)
    ensures Contents(Apply(m, PublishWrite))
  {
    hide And, Pow2, Sub, Rounded, ConsumerOk, At;
    var p, m' := m.producer, Apply(m, PublishWrite);
    forall i | |m'.consumed| <= i < |m'.accepted| ensures At(m', i) == m'.accepted[i] {
      SameSlots(m, m', i);
      if i >= |m.accepted| {
        assert At(m, |m.accepted| + (i - |m.accepted|)) == p.samples[i - |m.accepted|];
      }
    }
  }

  /** Reading a slot depends on the slots only. */
  lemma SameSlots(m: Machine, m': Machine, i: nat)
    requires Shape(m) && Shape(m') && m.slots == m'.slots
    ensures At(m, i) == At(m', i)
  {}

  lemma PublishWritePreserves(m: Machine)
    requires Inv(m) && Enabled(m, PublishWrite)
    ensures Inv(Apply(m, PublishWrite))
  {
    PublishKeepsContents(m);
    WrapShift(|m.accepted|, m.producer.count);
    hide And, Pow2, Sub, Rounded, At, Contents;
  }

  /** The consumer loads the oldest sample it has not loaded yet. */
  lemma LoadedSample(m: Machine)
    requires Inv(m) && Enabled(m, LoadSample)
    ensures var c := m.consumer;
            Apply(m, LoadSample) == m.(consumer := c.(out := c.out + [m.accepted[|m.consumed| + |c.out|]]))
  {
    hide Slot, Inv, Sub;
    NextUnread(m);
  }

  lemma NextUnread(m: Machine)
    requires Inv(m) && Enabled(m, LoadSample)
    ensures |m.consumed| + |m.consumer.out| < |m.accepted|
    ensures m.slots[Slot(m, m.consumer.own as nat + |m.consumer.out|)] == m.accepted[|m.consumed| + |m.consumer.out|]
  {
    var n, i := |m.consumed|, |m.consumer.out|;
    hide Slot, Rounded, ProducerOk;
    SlotIsModulo(m, m.consumer.own, n, i);
    assert At(m, n + i) == m.accepted[n + i];
  }

  lemma LoadPreserves(m: Machine)
    requires Inv(m) && Enabled(m, LoadSample)
    ensures Inv(Apply(m, LoadSample))
  {
    LoadedSample(m);
    var m' := Apply(m, LoadSample);
    hide Apply;
    SameContents(m, m');
    SameProducer(m, m');
    hide Contents, ProducerOk, Rounded;
    var from, out := |m.consumed|, m.consumer.out;
    assert m.accepted[from..from + |out|] + [m.accepted[from + |out|]] == m.accepted[from..from + |out| + 1];
  }

  lemma PublishReadKeepsContents(m: Machine)
    requires Inv(m) && Enabled(m, PublishRead)
    ensures Contents(Apply(m, PublishRead))
  {
    hide And, Pow2, Sub, Rounded, At, ProducerOk;
    var m' := Apply(m, PublishRead);
    assert m'.consumed == m.accepted[..|m'.consumed|];
    forall i | |m'.consumed| <= i < |m'.accepted| ensures At(m', i) == m'.accepted[i] {
      SameSlots(m, m', i);
    }
  }

  lemma PublishReadPreserves(m: Machine)
    requires Inv(m) && Enabled(m, PublishRead)
    ensures Inv(Apply(m, PublishRead))
  {
    hide And, Pow2, Sub, Rounded, Contents, At;
    PublishReadKeepsContents(m);
    WrapShift(|m.consumed|, m.consumer.count);
    var m' := Apply(m, PublishRead);
    SameProducer(m, m');
    hide ProducerOk;
    assert |m'.consumed| == |m.consumed| + m.consumer.count;
  }

  lemma StepPreserves(m: Machine, e: Event)
    requires Inv(m) && Enabled(m, e)
    ensures Inv(Apply(m, e))
  {
    match e
    case CallWrite(_) =>
    case SeeReadPos(n) => SeeReadPreserves(m, n);
    case StoreSample => StorePreserves(m);
    case PublishWrite => PublishWritePreserves(m);
    case CallRead(_) =>
    case SeeWritePos(n) => SeeWritePreserves(m, n);
    case LoadSample => LoadPreserves(m);
    case PublishRead => PublishReadPreserves(m);
  }

  // ----- Runs -----

  ghost predicate Reachable(start: Machine, events: seq<Event>, end: Machine)
    requires Shape(start)
    decreases |events|
  {
    if events == [] then start == end
    else Enabled(start, events[0]) && Reachable(Apply(start, events[0]), events[1..], end)
  }

  lemma {:induction false} RunPreserves(start: Machine, events: seq<Event>, end: Machine)
    requires Inv(start) && Reachable(start, events, end)
    ensures Inv(end)
    decreases |events|
  {
    if events != [] {
      StepPreserves(start, events[0]);
      RunPreserves(Apply(start, events[0]), events[1..], end);
    }
  }

  /** The published samples that have not been read, as the wrapping counters and the mask find them. */
  function Unread(m: Machine): seq<Sample>
    requires Shape(m)
  {
    seq(Sub(m.writePos, m.readPos), i requires 0 <= i => m.slots[Slot(m, m.readPos as nat + i)])
  }

  lemma UnreadIsDifference(m: Machine)
    requires Inv(m)
    ensures Sub(m.writePos, m.readPos) == |m.accepted| - |m.consumed| <= m.capacity
    ensures Unread(m) == m.accepted[|m.consumed|..]
  {
    RoundedIsSmall(m.capacity);
    WrappedDistance(|m.accepted|, |m.consumed|);
    forall i | 0 <= i < |m.accepted| - |m.consumed|
      ensures Unread(m)[i] == m.accepted[|m.consumed| + i]
    {
      SlotIsModulo(m, m.readPos, |m.consumed|, i);
      assert At(m, |m.consumed| + i) == m.accepted[|m.consumed| + i];
    }
  }

  /** Under every interleaving: what was read followed by what is unread is exactly what was written, and
      the wrapping counters give the true fill level, which never exceeds the capacity. */
  lemma FifoSafety(start: Machine, events: seq<Event>, end: Machine)
    requires Initial(start) && Reachable(start, events, end)
    ensures Shape(end) && end.consumed + Unread(end) == end.accepted
    ensures Sub(end.writePos, end.readPos) == |end.accepted| - |end.consumed| <= end.capacity == start.capacity
  {
    InitialInv(start);
    RunPreserves(start, events, end);
    CapacityFixed(start, events, end);
    UnreadIsDifference(end);
  }

  lemma {:induction false} CapacityFixed(start: Machine, events: seq<Event>, end: Machine)
    requires Shape(start) && Reachable(start, events, end)
    ensures end.capacity == start.capacity
    decreases |events|
  {
    if events != [] { CapacityFixed(Apply(start, events[0]), events[1..], end); }
  }

  /** No slot the producer has yet to write in this call is one the consumer has yet to read in its call. */
  lemma NoDataRace(start: Machine, events: seq<Event>, end: Machine, i: nat, j: nat)
    requires Initial(start) && Reachable(start, events, end)
    requires end.producer.Writing? && end.producer.done <= i < end.producer.count
    requires end.consumer.Reading? && |end.consumer.out| <= j < end.consumer.count
    ensures Shape(end) && Slot(end, end.producer.own as nat + i) != Slot(end, end.consumer.own as nat + j)
  {
    InitialInv(start);
    RunPreserves(start, events, end);
    hide Initial, Reachable, Inv, Slot;
    SlotsDisjoint(end, i, j);
  }

  lemma SlotsDisjoint(m: Machine, i: nat, j: nat)
    requires Inv(m)
    requires m.producer.Writing? && m.producer.done <= i < m.producer.count
    requires m.consumer.Reading? && |m.consumer.out| <= j < m.consumer.count
    ensures Shape(m) && Slot(m, m.producer.own as nat + i) != Slot(m, m.consumer.own as nat + j)
  {
    hide Rounded, Contents, Slot;
    SlotIsModulo(m, m.producer.own, |m.accepted|, i);
    SlotIsModulo(m, m.consumer.own, |m.consumed|, j);
    DistinctSlots(|m.consumed| + j, |m.accepted| + i, m.capacity);
  }

  // ----- What the calls of a run amount to -----

  /** The books of a run, kept from its events alone: what the completed writes have delivered and the completed
      reads have taken, and what the calls in progress will add to that. */
  datatype Ledger = Ledger(
    written: seq<Sample>,
    taken: nat,
    offered: seq<Sample>,  // the argument of the write call in progress
    claimed: seq<Sample>,  // the part of it that finds room
    limit: nat,            // the argument of the read call in progress
    due: nat)              // the number of samples it finds

  const EMPTY := Ledger([], 0, [], [], 0, 0)

  function FirstOf(s: seq<Sample>, n: int): seq<Sample>
  {
    if n <= 0 then [] else if n < |s| then s[..n] else s
  }

  /** A write delivers as much as fits behind the samples its producer believes unread; a read takes as much as its
      consumer believes written. */
  function Entered(l: Ledger, capacity: nat, e: Event): Ledger
  {
    match e
    case CallWrite(samples) => l.(offered := samples)
    case SeeReadPos(n) => l.(claimed := FirstOf(l.offered, capacity - (|l.written| - n)))
    case StoreSample => l
    case PublishWrite => l.(written := l.written + l.claimed)
    case CallRead(limit) => l.(limit := limit)
    case SeeWritePos(n) => l.(due := if n > l.taken then Min(l.limit, n - l.taken) else 0)
    case LoadSample => l
    case PublishRead => l.(taken := l.taken + l.due)
  }

  function Books(l: Ledger, capacity: nat, events: seq<Event>): Ledger
    decreases |events|
  {
    if events == [] then l else Books(Entered(l, capacity, events[0]), capacity, events[1..])
  }

  /** The machine is where its books say. */
  ghost predicate InBooks(m: Machine, l: Ledger)
  {
    m.accepted == l.written && |m.consumed| == l.taken &&
    (match m.producer
     case NotWriting => true
     case WriteCalled(samples, _) => samples == l.offered
     case Writing(samples, _, count, _) => samples == l.offered && count <= |samples| && samples[..count] == l.claimed) &&
    (match m.consumer
     case NotReading => true
     case ReadCalled(limit, _) => limit == l.limit
     case Reading(_, count, _) => count == l.due)
  }

  lemma StepInBooks(m: Machine, l: Ledger, e: Event)
    requires Inv(m) && InBooks(m, l) && Enabled(m, e)
    ensures InBooks(Apply(m, e), Entered(l, m.capacity, e))
  {
    match e
    case SeeReadPos(n) =>
      SeeReadPreserves(m, n);
      hide Inv, Slot;
      assert m.producer.samples == l.offered;
    case SeeWritePos(n) =>
      SeeWritePreserves(m, n);
      hide Slot, Contents, ProducerOk, Rounded;
    case _ =>
      hide Contents, Rounded, Slot;
  }

  lemma {:induction false} RunInBooks(start: Machine, l: Ledger, events: seq<Event>, end: Machine)
    requires Inv(start) && InBooks(start, l) && Reachable(start, events, end)
    ensures InBooks(end, Books(l, start.capacity, events)) && end.capacity == start.capacity
    decreases |events|
  {
    if events != [] {
      var e := events[0];
      StepInBooks(start, l, e);
      StepPreserves(start, e);
      assert Apply(start, e).capacity == start.capacity;
      hide Inv, Apply, Enabled, InBooks, Entered;
      RunInBooks(Apply(start, e), Entered(l, start.capacity, e), events[1..], end);
    }
  }

  /** In every run, the completed writes have delivered exactly the blocks that found room, the completed reads have
      returned exactly the oldest of these samples, block by block, and the positions count both modulo 2^64. */
  lemma RunMatchesBooks(start: Machine, events: seq<Event>, end: Machine)
    requires Initial(start) && Reachable(start, events, end)
    ensures var l := Books(EMPTY, start.capacity, events);
            && end.accepted == l.written
            && l.taken <= |l.written| && end.consumed == l.written[..l.taken]
            && end.writePos == |l.written| % 18446744073709551616
            && end.readPos == l.taken % 18446744073709551616
  {
    InitialInv(start);
    RunInBooks(start, EMPTY, events, end);
    RunPreserves(start, events, end);
    hide Rounded, ProducerOk, ConsumerOk;
  }

  // ----- Every call can be completed -----

  function Repeat(e: Event, n: nat): seq<Event>
  {
    seq(n, _ => e)
  }

  lemma {:induction false} Runs(start: Machine, a: seq<Event>, mid: Machine, b: seq<Event>, end: Machine)
    requires Shape(start) && Reachable(start, a, mid) && Shape(mid) && Reachable(mid, b, end)
    ensures Reachable(start, a + b, end)
    decreases |a|
  {
    if a == [] {
      assert a + b == b;
    } else {
      hide Apply, Enabled;
      assert (a + b)[0] == a[0] && (a + b)[1..] == a[1..] + b;
      Runs(Apply(start, a[0]), a[1..], mid, b, end);
    }
  }

  lemma {:induction false} StoresRun(m: Machine) returns (end: Machine)
    requires Inv(m) && m.producer.Writing?
    ensures Inv(end) && Reachable(m, Repeat(StoreSample, m.producer.count - m.producer.done), end)
    ensures end.producer == m.producer.(done := m.producer.count)
    ensures end == m.(slots := end.slots, producer := end.producer)
    decreases m.producer.count - m.producer.done
  {
    var p := m.producer;
    if p.done == p.count {
      end := m;
    } else {
      StorePreserves(m);
      var next := Apply(m, StoreSample);
      end := StoresRun(next);
      hide Slot, Inv;
      var rest := Repeat(StoreSample, p.count - p.done - 1);
      assert Repeat(StoreSample, p.count - p.done)[1..] == rest;
    }
  }

  lemma One(m: Machine, e: Event)
    requires Shape(m) && Enabled(m, e)
    ensures Reachable(m, [e], Apply(m, e))
  {
    assert [e][1..] == [];
  }

  /** From every state an idle producer can complete a write of any samples, whatever it sees of the reader, and
      delivers as many of them as fit behind the samples it believes unread. */
  lemma WriteCompletes(m: Machine, samples: seq<Sample>, n: nat) returns (events: seq<Event>, end: Machine)
    requires Inv(m) && m.producer.NotWriting? && |samples| < WORD64 && m.seenRead <= n <= |m.consumed|
    ensures Reachable(m, events, end) && Inv(end) && end.producer.NotWriting?
    ensures end.consumed == m.consumed
    ensures end.accepted == m.accepted + FirstOf(samples, m.capacity - (|m.accepted| - n))
  {
    StepPreserves(m, CallWrite(samples));
    var called := Apply(m, CallWrite(samples));
    SeeReadPreserves(called, n);
    var seen := Apply(called, SeeReadPos(n));
    var stored := StoresRun(seen);
    var stores := Repeat(StoreSample, seen.producer.count - seen.producer.done);
    PublishWritePreserves(stored);
    end := Apply(stored, PublishWrite);
    One(m, CallWrite(samples));
    One(called, SeeReadPos(n));
    One(stored, PublishWrite);
    hide Reachable, Inv, Slot, Enabled;
    Runs(m, [CallWrite(samples)], called, [SeeReadPos(n)], seen);
    Runs(m, [CallWrite(samples)] + [SeeReadPos(n)], seen, stores, stored);
    events := [CallWrite(samples)] + [SeeReadPos(n)] + stores + [PublishWrite];
    Runs(m, [CallWrite(samples)] + [SeeReadPos(n)] + stores, stored, [PublishWrite], end);
  }

  lemma {:induction false} LoadsRun(m: Machine) returns (end: Machine)
    requires Inv(m) && m.consumer.Reading?
    ensures Inv(end) && Reachable(m, Repeat(LoadSample, m.consumer.count - |m.consumer.out|), end)
    ensures end.consumer.Reading? && |end.consumer.out| == end.consumer.count == m.consumer.count
    ensures end == m.(consumer := end.consumer)
    decreases m.consumer.count - |m.consumer.out|
  {
    var c := m.consumer;
    if |c.out| == c.count {
      end := m;
    } else {
      LoadPreserves(m);
      var next := Apply(m, LoadSample);
      end := LoadsRun(next);
      hide Slot, Inv;
      var rest := Repeat(LoadSample, c.count - |c.out| - 1);
      assert Repeat(LoadSample, c.count - |c.out|)[1..] == rest;
    }
  }

  /** Likewise an idle consumer can complete a read of any size, and returns the oldest samples, as many as asked
      for of those it believes written. */
  lemma ReadCompletes(m: Machine, limit: Word, n: nat) returns (events: seq<Event>, end: Machine)
    requires Inv(m) && m.consumer.NotReading? && m.seenWritten <= n <= |m.accepted|
    ensures Reachable(m, events, end) && Inv(end) && end.consumer.NotReading?
    ensures end.accepted == m.accepted
    ensures var k := Min(limit, n - |m.consumed|);
            0 <= k && |m.consumed| + k <= |m.accepted| && end.consumed == m.accepted[..|m.consumed| + k]
  {
    StepPreserves(m, CallRead(limit));
    var called := Apply(m, CallRead(limit));
    SeeWritePreserves(called, n);
    var seen := Apply(called, SeeWritePos(n));
    var loaded := LoadsRun(seen);
    var loads := Repeat(LoadSample, seen.consumer.count - |seen.consumer.out|);
    PublishReadPreserves(loaded);
    end := Apply(loaded, PublishRead);
    ConsumedIsPrefix(end);
    One(m, CallRead(limit));
    One(called, SeeWritePos(n));
    One(loaded, PublishRead);
    hide Reachable, Inv, Slot, Enabled;
    Runs(m, [CallRead(limit)], called, [SeeWritePos(n)], seen);
    Runs(m, [CallRead(limit)] + [SeeWritePos(n)], seen, loads, loaded);
    events := [CallRead(limit)] + [SeeWritePos(n)] + loads + [PublishRead];
    Runs(m, [CallRead(limit)] + [SeeWritePos(n)] + loads, loaded, [PublishRead], end);
  }

  lemma ConsumedIsPrefix(m: Machine)
    requires Inv(m)
    ensures |m.consumed| <= |m.accepted| && m.consumed == m.accepted[..|m.consumed|]
  {
    hide At, ProducerOk, ConsumerOk, Rounded;
  }
}

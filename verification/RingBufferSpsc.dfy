// One producer and one consumer on the same ring, interleaved at the steps of put and get that touch
// shared memory: the full or empty test, the copy of each byte, and the publication of the counter.
module RingBufferSpsc {
  import opened Grid
  import opened RingBuffer
  import opened WordBits
  import opened Words

  type Element = seq<uint8>

  // Where each side stands; a copy has done its first `done` bytes.
  datatype Producer = Idle | Writing(data: Element, done: nat)
  datatype Consumer = Waiting | Reading(got: Element)

  // The ring's memory and counters, and as history the completed puts and gets.
  datatype State = State(
    s: nat,
    slots: seq<Element>,
    head: uint32,
    tail: uint32,
    producer: Producer,
    consumer: Consumer,
    sent: seq<Element>,
    received: seq<Element>)

  datatype Step =
    | PutFull
    | PutStart(data: Element)
    | PutByte
    | PutPublish
    | GetEmpty
    | GetStart
    | GetByte
    | GetPublish

  ghost predicate Init(x: State) {
    && 1 <= x.s && 1 <= |x.slots| < TWO32 && IsPow2(|x.slots|)
    && (forall j | 0 <= j < |x.slots| :: |x.slots[j]| == x.s)
    && x.head == x.tail == 0
    && x.producer == Idle && x.consumer == Waiting
    && x.sent == [] && x.received == []
  }

  // The slot a counter selects: counter & (n_elem - 1).
  function Masked(x: State, counter: uint32): nat
    requires |x.slots| >= 1
  {
    WordAnd(counter, |x.slots| - 1)
  }

  ghost predicate Next(x: State, y: State, step: Step)
    requires |x.slots| >= 1
  {
    match step
    case PutFull =>
      x.producer == Idle && Count(x.head, x.tail) == |x.slots| && y == x
    case PutStart(data) =>
      && x.producer == Idle && |data| == x.s && Count(x.head, x.tail) != |x.slots|
      && y == x.(producer := Writing(data, 0))
    case PutByte =>
      && x.producer.Writing? && x.producer.done < |x.producer.data|
      && Masked(x, x.head) < |x.slots| && x.producer.done < |x.slots[Masked(x, x.head)]|
      && var slot := x.slots[Masked(x, x.head)];
      y == x.(slots := x.slots[Masked(x, x.head) := slot[x.producer.done := x.producer.data[x.producer.done]]],
              producer := x.producer.(done := x.producer.done + 1))
    case PutPublish =>
      && x.producer.Writing? && x.producer.done == x.s
      && y == x.(head := Wrap32(x.head + 1), producer := Idle, sent := x.sent + [x.producer.data])
    case GetEmpty =>
      x.consumer == Waiting && Count(x.head, x.tail) == 0 && y == x
    case GetStart =>
      x.consumer == Waiting && Count(x.head, x.tail) != 0 && y == x.(consumer := Reading([]))
    case GetByte =>
      && x.consumer.Reading? && |x.consumer.got| < x.s
      && Masked(x, x.tail) < |x.slots| && |x.consumer.got| < |x.slots[Masked(x, x.tail)]|
      && y == x.(consumer := Reading(x.consumer.got + [x.slots[Masked(x, x.tail)][|x.consumer.got|]]))
    case GetPublish =>
      && x.consumer.Reading? && |x.consumer.got| == x.s
      && y == x.(tail := Wrap32(x.tail + 1), consumer := Waiting, received := x.received + [x.consumer.got])
  }

  // The slot of the i-th element ever sent.
  function SlotIndex(x: State, i: nat): (j: nat)
    requires |x.slots| >= 1
    ensures j < |x.slots|
  {
    DivModOf(i, |x.slots|);
    i % |x.slots|
  }

  ghost predicate Inv(x: State) {
    var n := |x.slots|;
    && 1 <= x.s && 1 <= n < TWO32 && IsPow2(n)
    && (forall j | 0 <= j < n :: |x.slots[j]| == x.s)
    && (forall i | 0 <= i < |x.sent| :: |x.sent[i]| == x.s)
    && x.head == Wrap32(|x.sent|) && x.tail == Wrap32(|x.received|)
    && |x.received| <= |x.sent| <= |x.received| + n
    && x.received == x.sent[..|x.received|]
    && (forall i | |x.received| <= i < |x.sent| :: x.slots[SlotIndex(x, i)] == x.sent[i])
    && (x.producer.Writing? ==>
          |x.sent| < |x.received| + n && |x.producer.data| == x.s && x.producer.done <= x.s
          && x.slots[SlotIndex(x, |x.sent|)][..x.producer.done] == x.producer.data[..x.producer.done])
    && (x.consumer.Reading? ==>
          |x.received| < |x.sent| && |x.consumer.got| <= x.s
          && x.consumer.got == x.sent[|x.received|][..|x.consumer.got|])
  }

  // The unsigned difference of the wrapped counters is the number of elements not yet received.
  lemma CountIsLength(x: State)
    requires Inv(x)
    ensures Count(x.head, x.tail) == |x.sent| - |x.received|
    ensures Masked(x, x.head) == SlotIndex(x, |x.sent|)
    ensures Masked(x, x.tail) == SlotIndex(x, |x.received|)
  {
    var n, h, t := |x.slots|, |x.sent|, |x.received|;
    CountWrapped(h, t);
    MaskedCounter(x.head, n);
    MaskedCounter(x.tail, n);
    WrapThenMod(h, n);
    WrapThenMod(t, n);
  }

  lemma CountWrapped(h: nat, t: nat)
    requires t <= h < t + TWO32
    ensures Count(Wrap32(h), Wrap32(t)) == h - t
  {
    assert h == h / TWO32 * TWO32 + h % TWO32;
    assert t == t / TWO32 * TWO32 + t % TWO32;
  }

  // Two of the elements in the ring, the one being written included, lie in different slots.
  lemma SlotsDiffer(x: State, i: nat, j: nat)
    requires Inv(x) && i < j < i + |x.slots|
    ensures SlotIndex(x, i) != SlotIndex(x, j)
  {
    SlotsDistinct(i, 0, j - i, |x.slots|);
  }

  lemma InitInv(x: State)
    requires Init(x)
    ensures Inv(x)
  {
  }

  lemma PutByteInv(x: State, y: State)
    requires Inv(x) && Next(x, y, PutByte)
    ensures Inv(y)
  {
    CountIsLength(x);
    var h := |x.sent|;
    forall i | |x.received| <= i < h ensures y.slots[SlotIndex(y, i)] == x.slots[SlotIndex(x, i)] {
      SlotsDiffer(x, i, h);
    }
    var k, data := x.producer.done, x.producer.data;
    assert data[..k + 1] == data[..k] + [data[k]];
    var was, now := x.slots[SlotIndex(x, h)], y.slots[SlotIndex(y, h)];
    assert now[..k + 1] == was[..k] + [data[k]];
  }

  lemma PutPublishInv(x: State, y: State)
    requires Inv(x) && Next(x, y, PutPublish)
    ensures Inv(y)
  {
    var h := |x.sent|;
    assert x.producer.data == x.producer.data[..x.s];
    assert x.slots[SlotIndex(x, h)] == x.slots[SlotIndex(x, h)][..x.s];
    WrapNext(h);
  }

  lemma GetByteInv(x: State, y: State)
    requires Inv(x) && Next(x, y, GetByte)
    ensures Inv(y)
  {
    CountIsLength(x);
    var e, k := x.sent[|x.received|], |x.consumer.got|;
    assert e[..k + 1] == e[..k] + [e[k]];
  }

  lemma GetPublishInv(x: State, y: State)
    requires Inv(x) && Next(x, y, GetPublish)
    ensures Inv(y)
  {
    var t := |x.received|;
    assert x.sent[t][..x.s] == x.sent[t];
    assert x.sent[..t + 1] == x.sent[..t] + [x.sent[t]];
    WrapNext(t);
  }

  lemma WrapNext(c: nat)
    ensures Wrap32(Wrap32(c) + 1) == Wrap32(c + 1)
  {
  }

  lemma NextInv(x: State, y: State, step: Step)
    requires Inv(x) && Next(x, y, step)
    ensures Inv(y)
  {
    match step
    case PutFull =>
    case PutStart(data) => CountIsLength(x);
    case PutByte => PutByteInv(x, y);
    case PutPublish => PutPublishInv(x, y);
    case GetEmpty =>
    case GetStart => CountIsLength(x);
    case GetByte => GetByteInv(x, y);
    case GetPublish => GetPublishInv(x, y);
  }

  // A run: states and the steps between them, in any interleaving.
  ghost predicate Run(xs: seq<State>, steps: seq<Step>) {
    && |xs| == |steps| + 1 && Init(xs[0])
    && forall i | 0 <= i < |steps| :: |xs[i].slots| >= 1 && Next(xs[i], xs[i + 1], steps[i])
  }

  lemma {:induction false} RunInv(xs: seq<State>, steps: seq<Step>, i: nat)
    requires Run(xs, steps) && i < |xs|
    ensures Inv(xs[i])
  {
    if i == 0 {
      InitInv(xs[0]);
    } else {
      RunInv(xs, steps, i - 1);
      NextInv(xs[i - 1], xs[i], steps[i - 1]);
    }
  }

  // In every run the received elements are a prefix of the sent ones, whole and in order, and at most
  // n_elem are under way.
  lemma ReceivedIsPrefix(xs: seq<State>, steps: seq<Step>, i: nat)
    requires Run(xs, steps) && i < |xs|
    ensures xs[i].received <= xs[i].sent
    ensures |xs[i].sent| - |xs[i].received| <= |xs[i].slots|
  {
    RunInv(xs, steps, i);
  }

  // While the producer writes and the consumer reads, they are in different slots.
  lemma NoSlotShared(xs: seq<State>, steps: seq<Step>, i: nat)
    requires Run(xs, steps) && i < |xs| && xs[i].producer.Writing? && xs[i].consumer.Reading?
    ensures |xs[i].slots| >= 1 && Masked(xs[i], xs[i].head) != Masked(xs[i], xs[i].tail)
  {
    var x := xs[i];
    RunInv(xs, steps, i);
    CountIsLength(x);
    SlotsDiffer(x, |x.received|, |x.sent|);
  }

  // A put is refused exactly when n_elem elements are unread, a get exactly when none is, however often
  // the counters have wrapped.
  lemma TestsExact(xs: seq<State>, steps: seq<Step>, i: nat)
    requires Run(xs, steps) && i < |xs|
    ensures Count(xs[i].head, xs[i].tail) == |xs[i].slots| <==> |xs[i].sent| == |xs[i].received| + |xs[i].slots|
    ensures Count(xs[i].head, xs[i].tail) == 0 <==> xs[i].sent == xs[i].received
  {
    RunInv(xs, steps, i);
    CountIsLength(xs[i]);
  }
}

/** A ring shared by one producer and one consumer: the single accesses to head, tail and a data
    byte, and what they keep whatever the other side does in between. */
module SharedRing {
  import opened Types
  import RB = RingBuf

  /** `stream` is everything published so far, `taken` how much of it tail has passed. */
  datatype Ring = Ring(data: seq<byte>, head: nat, tail: nat, stream: seq<byte>, taken: nat)

  /** whad_ringbuf_push: check the space, write the byte, publish the new head. */
  datatype Push = PIdle | PChecked(b: byte) | PWritten(b: byte)

  ghost predicate WellFormed(r: Ring) {
    |r.data| == RING_SLOTS && r.head < RING_SLOTS && r.tail < RING_SLOTS
  }

  function Size(r: Ring): int {
    (RING_SLOTS + r.head - r.tail) % RING_SLOTS
  }

  /** One access of a push of `b`; a full ring refuses it. */
  function PushStep(r: Ring, push: Push, b: byte): (Ring, Push)
    requires WellFormed(r)
  {
    match push
    case PIdle => (r, if RING_CAPACITY - Size(r) > 0 then PChecked(b) else PIdle)
    case PChecked(c) => (r.(data := r.data[r.head := c]), PWritten(c))
    case PWritten(c) => (r.(head := (r.head + 1) % RING_SLOTS, stream := r.stream + [c]), PIdle)
  }

  /** The byte that a copy reads as its k-th. */
  function Peek(r: Ring, k: nat): byte
    requires WellFormed(r)
  {
    r.data[(r.tail + k) % RING_SLOTS]
  }

  /** The write of tail that ends a skip. */
  function Take(r: Ring, n: nat): Ring {
    r.(tail := (r.tail + n) % RING_SLOTS, taken := r.taken + n)
  }

  function Empty(data: seq<byte>): Ring {
    Ring(data, 0, 0, [], 0)
  }

  // ---------------------------------------------------------------- invariant

  /** Slot i % 1024 holds stream byte i until it is taken. */
  ghost predicate SlotsHold(data: seq<byte>, stream: seq<byte>, taken: nat)
    requires |data| == RING_SLOTS
  {
    forall i | taken <= i < |stream| :: data[i % RING_SLOTS] == stream[i]
  }

  /** Head and tail count stream bytes, modulo the ring. */
  ghost predicate RingHolds(r: Ring) {
    && WellFormed(r)
    && r.taken <= |r.stream| && |r.stream| - r.taken <= RING_CAPACITY
    && r.head == |r.stream| % RING_SLOTS
    && r.tail == r.taken % RING_SLOTS
    && SlotsHold(r.data, r.stream, r.taken)
  }

  ghost predicate PushOk(r: Ring, push: Push)
    requires WellFormed(r)
  {
    match push
    case PIdle => true
    case PChecked(_) => |r.stream| - r.taken < RING_CAPACITY
    case PWritten(b) => |r.stream| - r.taken < RING_CAPACITY && r.data[r.head] == b
  }

  /** Positions less than a lap apart, by the laps they have completed. */
  lemma LapsApart(i: nat, j: nat)
    requires i <= j < i + RING_SLOTS
    ensures j % RING_SLOTS - i % RING_SLOTS == j - i || j % RING_SLOTS - i % RING_SLOTS == j - i - RING_SLOTS
  {
    var laps := j / RING_SLOTS - i / RING_SLOTS;
    assert j % RING_SLOTS - i % RING_SLOTS == j - i - RING_SLOTS * laps;
    assert laps == 0 || laps == 1;
  }

  lemma SizeIsQueued(r: Ring)
    requires RingHolds(r)
    ensures Size(r) == |r.stream| - r.taken
  {
    LapsApart(r.taken, |r.stream|);
    hide SlotsHold;
  }

  lemma DistinctSlots(i: nat, j: nat)
    requires i < j < i + RING_SLOTS
    ensures i % RING_SLOTS != j % RING_SLOTS
  {
    LapsApart(i, j);
  }

  /** The slot written lies outside the slots in use. */
  lemma WriteHolds(r: Ring, b: byte)
    requires RingHolds(r) && PushOk(r, PChecked(b))
    ensures var (t, q) := PushStep(r, PChecked(b), b); RingHolds(t) && PushOk(t, q)
  {
    forall i | r.taken <= i < |r.stream|
      ensures r.data[r.head := b][i % RING_SLOTS] == r.stream[i]
    {
      DistinctSlots(i, |r.stream|);
    }
    assert SlotsHold(r.data[r.head := b], r.stream, r.taken);
  }

  lemma SlotsExtend(data: seq<byte>, stream: seq<byte>, taken: nat, b: byte)
    requires |data| == RING_SLOTS && SlotsHold(data, stream, taken)
    requires data[|stream| % RING_SLOTS] == b
    ensures SlotsHold(data, stream + [b], taken)
  {
  }

  /** Publishing extends the slots in use by the one written. */
  lemma PublishHolds(r: Ring, b: byte)
    requires RingHolds(r) && PushOk(r, PWritten(b))
    ensures var (t, q) := PushStep(r, PWritten(b), b); RingHolds(t) && PushOk(t, q)
  {
    RB.WrapAdd(|r.stream|, 1);
    SlotsExtend(r.data, r.stream, r.taken, b);
    hide SlotsHold;
  }

  /** Every access of the producer keeps the ring, and only the last one publishes. */
  lemma PushStepHolds(r: Ring, push: Push, b: byte)
    requires RingHolds(r) && PushOk(r, push)
    ensures var (t, q) := PushStep(r, push, b);
            && RingHolds(t) && PushOk(t, q) && t.taken == r.taken
            && t.stream == if push.PWritten? then r.stream + [push.b] else r.stream
  {
    SizeIsQueued(r);
    match push
    case PIdle =>
    case PChecked(c) => WriteHolds(r, c); hide RingHolds, PushOk;
    case PWritten(c) => PublishHolds(r, c); hide RingHolds, PushOk;
  }

  /** A byte copied out of the ring is the stream byte it stands for: it has not been overwritten. */
  lemma PeekIsStream(r: Ring, k: nat)
    requires RingHolds(r)
    requires r.taken + k < |r.stream|
    ensures Peek(r, k) == r.stream[r.taken + k]
  {
    RB.WrapAdd(r.taken, k);
  }

  /** Advancing tail keeps the ring, and a push in progress keeps its space. */
  lemma TakeHolds(r: Ring, push: Push, n: nat)
    requires RingHolds(r) && PushOk(r, push)
    requires r.taken + n <= |r.stream|
    ensures RingHolds(Take(r, n)) && PushOk(Take(r, n), push)
  {
    RB.WrapAdd(r.taken, n);
  }
}

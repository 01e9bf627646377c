/** The receive ring shared by one producer (data_received) and one consumer (get_message), with
    every access to head, tail or a data byte as a step of its own, in any interleaving. */
module Spsc {
  import opened Types
  import opened Framing
  import opened SharedRing

  /** What a copy is for, and what follows a skip. */
  datatype Purpose = ForHeader | ForPayload
  datatype After = Stop | CopyPayload(size: nat) | Done(payload: seq<byte>)

  /** whad_transport_get_message, cut at its accesses to the ring. */
  datatype Consumer =
    | CIdle
    | CopyCheck(want: nat, purpose: Purpose)                   // size test inside ringbuf_copy
    | Copying(want: nat, got: seq<byte>, purpose: Purpose)     // memcpy, byte by byte
    | SizeCheck(size: nat)                                     // is the whole frame there?
    | SkipCheck(n: nat, after: After)                          // size test inside ringbuf_skip
    | SkipWrite(n: nat, after: After)                          // advance tail

  /** `room` is the size of the caller's buffer in the call in progress, `start` where that call began,
      and `broken` records that a size test inside copy or skip has failed. */
  datatype Shared = Shared(
    ring: Ring, push: Push, consumer: Consumer, room: int, start: nat, delivered: seq<seq<byte>>, broken: bool)

  /** One producer step; `b` is the next byte when a push begins. */
  function Produce(s: Shared, b: byte): Shared
    requires WellFormed(s.ring)
  {
    var (r, q) := PushStep(s.ring, s.push, b);
    s.(ring := r, push := q)
  }

  /** What get_message does next, given the four header bytes. */
  function AfterHeader(h: seq<byte>, room: int): Consumer
    requires |h| == HEADER_SIZE
  {
    if MagicAt(h, 0) then
      var size := AnnouncedSize(h, 0);
      if size > MAX_PAYLOAD then SkipCheck(1, Stop)
      else if room >= size then SizeCheck(size)
      else CIdle
    else if h[1] == MAGIC0 then SkipCheck(1, Stop)
    else SkipCheck(2, Stop)
  }

  /** One consumer step; `room` is the caller's buffer size when a call begins. */
  function Consume(s: Shared, room: int): Shared
    requires WellFormed(s.ring)
    requires s.consumer.Copying? && s.consumer.purpose.ForHeader? ==> s.consumer.want == HEADER_SIZE
  {
    match s.consumer
    case CIdle =>
      if Size(s.ring) >= HEADER_SIZE then s.(consumer := CopyCheck(HEADER_SIZE, ForHeader), room := room) else s
    case CopyCheck(want, purpose) =>
      if want > Size(s.ring) then s.(broken := true, consumer := CIdle)
      else s.(consumer := Copying(want, [], purpose))
    case Copying(want, got, purpose) =>
      if |got| < want then
        s.(consumer := Copying(want, got + [Peek(s.ring, |got|)], purpose))
      else if purpose.ForHeader? then
        s.(consumer := AfterHeader(got[..HEADER_SIZE], s.room))
      else s.(consumer := SkipCheck(want, Done(got)))
    case SizeCheck(size) =>
      if Size(s.ring) >= size + HEADER_SIZE then s.(consumer := SkipCheck(HEADER_SIZE, CopyPayload(size)))
      else s.(consumer := CIdle)
    case SkipCheck(n, after) =>
      if Size(s.ring) < n then s.(broken := true, consumer := CIdle)
      else s.(consumer := SkipWrite(n, after))
    case SkipWrite(n, after) =>
      var t := s.(ring := Take(s.ring, n));
      match after
      case Stop => t.(consumer := CIdle, start := t.ring.taken)
      case CopyPayload(size) => t.(consumer := CopyCheck(size, ForPayload))
      case Done(payload) =>
        t.(consumer := CIdle, start := t.ring.taken, delivered := s.delivered + [payload])
  }

  // ---------------------------------------------------------------- invariant

  /** The messages delivered so far and those of the stream from `start` on are the messages of the
      whole stream, whatever is published later. */
  ghost predicate Agrees(stream: seq<byte>, start: nat, delivered: seq<seq<byte>>)
    requires start <= |stream|
  {
    forall later: seq<byte> :: Parse(stream + later) == Parse(stream[start..] + later).After(delivered)
  }

  /** The decision in progress is the parser's decision on the stream from `start` on. */
  ghost predicate ConsumerOk(consumer: Consumer, room: int, stream: seq<byte>, start: nat, taken: nat)
    requires start <= taken <= |stream|
  {
    var ahead := stream[start..];
    var d := Decide(ahead, room);
    match consumer
    case CIdle => start == taken
    case CopyCheck(want, ForHeader) => start == taken && want == HEADER_SIZE <= |ahead|
    case Copying(want, got, ForHeader) =>
      start == taken && want == HEADER_SIZE <= |ahead| && got <= ahead[..want]
    case SizeCheck(size) => start == taken && Admissible(ahead, 0) && size == AnnouncedSize(ahead, 0) <= room
    case SkipCheck(n, Stop) => start == taken && (d.Discard? || d.Reject?) && n == d.Consumed()
    case SkipWrite(n, Stop) => start == taken && (d.Discard? || d.Reject?) && n == d.Consumed()
    case SkipCheck(n, CopyPayload(size)) =>
      start == taken && n == HEADER_SIZE && d.Deliver? && size == |d.payload|
    case SkipWrite(n, CopyPayload(size)) =>
      start == taken && n == HEADER_SIZE && d.Deliver? && size == |d.payload|
    case CopyCheck(want, ForPayload) =>
      taken == start + HEADER_SIZE && d.Deliver? && want == |d.payload|
    case Copying(want, got, ForPayload) =>
      taken == start + HEADER_SIZE && d.Deliver? && want == |d.payload| && got <= d.payload
    case SkipCheck(n, Done(payload)) =>
      taken == start + HEADER_SIZE && d == Deliver(payload) && n == |payload|
    case SkipWrite(n, Done(payload)) =>
      taken == start + HEADER_SIZE && d == Deliver(payload) && n == |payload|
  }

  ghost predicate SpscInv(s: Shared) {
    && RingHolds(s.ring)
    && s.start <= s.ring.taken
    && PushOk(s.ring, s.push)
    && ConsumerOk(s.consumer, s.room, s.ring.stream, s.start, s.ring.taken)
    && Agrees(s.ring.stream, s.start, s.delivered)
    && !s.broken
  }

  function Fresh(data: seq<byte>): Shared {
    Shared(Empty(data), PIdle, CIdle, 0, 0, [], false)
  }

  lemma FreshInv(data: seq<byte>)
    requires |data| == RING_SLOTS
    ensures SpscInv(Fresh(data))
  {
    assert forall later: seq<byte> :: [][0..] + later == later;
  }

  // ---------------------------------------------------------------- producer steps

  lemma AgreesLater(stream: seq<byte>, start: nat, delivered: seq<seq<byte>>, b: byte)
    requires start <= |stream|
    requires Agrees(stream, start, delivered)
    ensures Agrees(stream + [b], start, delivered)
  {
    hide Parse;
    forall later: seq<byte>
      ensures Parse(stream + [b] + later) == Parse((stream + [b])[start..] + later).After(delivered)
    {
      assert stream + [b] + later == stream + ([b] + later);
      assert (stream + [b])[start..] + later == stream[start..] + ([b] + later);
    }
  }

  /** Publishing a byte does not disturb a decision in progress. */
  lemma ConsumerOkLater(consumer: Consumer, room: int, stream: seq<byte>, start: nat, taken: nat, b: byte)
    requires start <= taken <= |stream|
    requires ConsumerOk(consumer, room, stream, start, taken)
    ensures ConsumerOk(consumer, room, stream + [b], start, taken)
  {
    var ahead := stream[start..];
    assert (stream + [b])[start..] == ahead + [b];
    if !Decide(ahead, room).Wait? {
      DecisionStable(ahead, [b], room);
    }
    if |ahead| >= HEADER_SIZE {
      assert (ahead + [b])[..HEADER_SIZE] == ahead[..HEADER_SIZE];
    }
  }

  lemma ProduceKeeps(s: Shared, b: byte)
    requires SpscInv(s)
    ensures SpscInv(Produce(s, b)) && s.ring.stream <= Produce(s, b).ring.stream
  {
    PushStepHolds(s.ring, s.push, b);
    hide ConsumerOk, Agrees, RingHolds, PushOk, PushStep;
    if s.push.PWritten? {
      AgreesLater(s.ring.stream, s.start, s.delivered, s.push.b);
      ConsumerOkLater(s.consumer, s.room, s.ring.stream, s.start, s.ring.taken, s.push.b);
    }
  }

  // ---------------------------------------------------------------- consumer steps

  /** A finished decision moves `start` over the bytes it consumes. */
  lemma AgreesAdvance(stream: seq<byte>, start: nat, room: int, delivered: seq<seq<byte>>)
    requires start <= |stream|
    requires Agrees(stream, start, delivered)
    requires Decide(stream[start..], room).Consumed() > 0
    ensures var d := Decide(stream[start..], room);
            Agrees(stream, start + d.Consumed(), delivered + d.Messages())
  {
    hide Parse;
    var ahead := stream[start..];
    AnyBuffer(ahead, room);
    var d := Decide(ahead, MAX_PAYLOAD);
    var n: nat := d.Consumed();
    assert n <= |ahead|;
    hide Decide;
    forall later: seq<byte>
      ensures Parse(stream + later) == Parse(stream[start + n..] + later).After(delivered + d.Messages())
    {
      ParseStep(ahead, later);
      assert ahead[n..] == stream[start + n..];
      Parse(ahead[n..] + later).AfterAfter(delivered, d.Messages());
    }
  }

  /** What get_message does after reading four header bytes is the parser's decision. */
  lemma AfterHeaderOk(stream: seq<byte>, start: nat, room: int)
    requires start + HEADER_SIZE <= |stream|
    ensures ConsumerOk(AfterHeader(stream[start..][..HEADER_SIZE], room), room, stream, start, start)
  {
  }

  lemma CopyingOk(s: Shared, room: int)
    requires SpscInv(s) && s.consumer.Copying?
    ensures ConsumerOk(Consume(s, room).consumer, s.room, s.ring.stream, s.start, s.ring.taken)
  {
    hide Agrees, AfterHeader, Parse, Admissible, PushOk, Peek;
    var Copying(want, got, purpose) := s.consumer;
    var ahead := s.ring.stream[s.start..];
    if |got| < want {
      PeekIsStream(s.ring, |got|);
    } else if purpose.ForHeader? {
      assert got[..HEADER_SIZE] == ahead[..HEADER_SIZE];
      AfterHeaderOk(s.ring.stream, s.start, s.room);
    } else {
      assert got == Decide(ahead, s.room).payload;
    }
  }

  /** Advancing tail stays within the decision, and ends it or leads to its payload. */
  lemma SkipWriteOk(s: Shared, room: int)
    requires SpscInv(s) && s.consumer.SkipWrite?
    ensures var t := Consume(s, room);
            && s.start <= s.ring.taken + s.consumer.n == t.ring.taken <= |s.ring.stream|
            && t.start <= t.ring.taken
            && ConsumerOk(t.consumer, t.room, s.ring.stream, t.start, t.ring.taken)
            && Agrees(s.ring.stream, t.start, t.delivered)
  {
    hide Agrees, Parse, Admissible, PushOk, AfterHeader;
    var SkipWrite(n, after) := s.consumer;
    if !after.CopyPayload? {
      AgreesAdvance(s.ring.stream, s.start, s.room, s.delivered);
      assert s.delivered + [] == s.delivered;
    }
  }

  /** Every size test inside copy and skip succeeds. */
  lemma CheckOk(s: Shared, room: int)
    requires SpscInv(s) && !s.consumer.Copying? && !s.consumer.SkipWrite?
    ensures var t := Consume(s, room);
            !t.broken && ConsumerOk(t.consumer, t.room, s.ring.stream, s.start, s.ring.taken)
  {
    hide Agrees, Parse, AfterHeader;
    SizeIsQueued(s.ring);
  }

  lemma CopyingKeeps(s: Shared, room: int)
    requires SpscInv(s) && s.consumer.Copying?
    ensures SpscInv(Consume(s, room))
  {
    CopyingOk(s, room);
    hide ConsumerOk, Agrees, AfterHeader, PushOk;
  }

  lemma SkipWriteKeeps(s: Shared, room: int)
    requires SpscInv(s) && s.consumer.SkipWrite?
    ensures SpscInv(Consume(s, room))
  {
    SkipWriteOk(s, room);
    TakeHolds(s.ring, s.push, s.consumer.n);
    hide ConsumerOk, Agrees, PushOk, RingHolds;
  }

  lemma CheckKeeps(s: Shared, room: int)
    requires SpscInv(s) && !s.consumer.Copying? && !s.consumer.SkipWrite?
    ensures SpscInv(Consume(s, room))
  {
    CheckOk(s, room);
    hide ConsumerOk, Agrees, PushOk;
  }

  lemma ConsumeKeeps(s: Shared, room: int)
    requires SpscInv(s)
    ensures SpscInv(Consume(s, room)) && Consume(s, room).ring.stream == s.ring.stream
  {
    hide ConsumerOk, Agrees, PushOk, RingHolds, AfterHeader;
    match s.consumer
    case Copying(_, _, _) => CopyingKeeps(s, room);
    case SkipWrite(_, _) => SkipWriteKeeps(s, room);
    case _ => CheckKeeps(s, room);
  }

  // ---------------------------------------------------------------- calls are atomic and finite

  /** The decision of the call in progress, or of the one that `room` begins, on what is published now. */
  ghost function Decision(s: Shared, room: int): Decision
    requires s.start <= |s.ring.stream|
  {
    Decide(s.ring.stream[s.start..], if s.consumer.CIdle? then room else s.room)
  }

  lemma HeaderDecides(s: Shared, room: int)
    requires SpscInv(s) && s.consumer.Copying? && s.consumer.purpose.ForHeader?
    ensures Consume(s, room).consumer.CIdle? ==> Decision(s, room).TooSmall?
  {
    hide Agrees, PushOk, Peek, Parse;
    assert |s.consumer.got| == HEADER_SIZE ==> s.consumer.got == s.ring.stream[s.start..][..HEADER_SIZE];
  }

  /** Whatever the producer does between the accesses of a call, the access that ends the call gives it
      exactly the effect that an atomic get_message has at that moment, and no other access has any. */
  lemma CallIsAtomic(s: Shared, room: int)
    requires SpscInv(s)
    ensures var (t, d) := (Consume(s, room), Decision(s, room));
            if t.consumer.CIdle?
            then t.start == t.ring.taken == s.start + d.Consumed() && t.delivered == s.delivered + d.Messages()
            else t.start == s.start && t.delivered == s.delivered
  {
    assert s.delivered + [] == s.delivered;
    SizeIsQueued(s.ring);
    if s.consumer.Copying? && s.consumer.purpose.ForHeader? {
      HeaderDecides(s, room);
    }
    hide Agrees, PushOk, Peek, Parse, AfterHeader, SlotsHold, Size;
  }

  /** How many accesses a call has left at most. */
  function StepsLeft(c: Consumer): int {
    match c
    case CIdle => 0
    case SkipWrite(_, Stop) => 1
    case SkipCheck(_, Stop) => 2
    case SkipWrite(_, Done(_)) => 1
    case SkipCheck(_, Done(_)) => 2
    case Copying(want, got, ForPayload) => 3 + want - |got|
    case CopyCheck(want, ForPayload) => 4 + want
    case SkipWrite(_, CopyPayload(size)) => 5 + size
    case SkipCheck(_, CopyPayload(size)) => 6 + size
    case SizeCheck(size) => 7 + size
    case Copying(want, got, ForHeader) => 8 + MAX_PAYLOAD + want - |got|
    case CopyCheck(want, ForHeader) => 9 + MAX_PAYLOAD + want
  }

  /** Every access brings a call closer to its end, whatever the producer does: none takes more than
      1033 of them. */
  lemma CallEnds(s: Shared, room: int)
    requires SpscInv(s)
    ensures 0 <= StepsLeft(s.consumer) <= 1032
    ensures s.consumer.CIdle? <==> StepsLeft(s.consumer) == 0
    ensures !s.consumer.CIdle? ==> StepsLeft(Consume(s, room).consumer) < StepsLeft(s.consumer)
  {
    hide Agrees, PushOk, Peek, Parse, SlotsHold, Size;
  }

  // ---------------------------------------------------------------- every interleaving

  datatype Action = ProducerStep(b: byte) | ConsumerStep(room: int)

  ghost function Run(s: Shared, actions: seq<Action>): Shared
    requires SpscInv(s)
    decreases |actions|
  {
    if actions == [] then s
    else
      match actions[0]
      case ProducerStep(b) =>
        ProduceKeeps(s, b);
        Run(Produce(s, b), actions[1..])
      case ConsumerStep(room) =>
        ConsumeKeeps(s, room);
        Run(Consume(s, room), actions[1..])
  }

  lemma AgreesNow(stream: seq<byte>, start: nat, delivered: seq<seq<byte>>)
    requires start <= |stream|
    requires Agrees(stream, start, delivered)
    ensures Parse(stream) == Parse(stream[start..]).After(delivered)
  {
    hide Parse;
    assert stream + [] == stream && stream[start..] + [] == stream[start..];
  }

  lemma {:induction false} RunKeeps(s: Shared, actions: seq<Action>)
    requires SpscInv(s)
    ensures SpscInv(Run(s, actions)) && s.ring.stream <= Run(s, actions).ring.stream
    decreases |actions|
  {
    if actions != [] {
      hide SpscInv, Produce, Consume;
      match actions[0]
      case ProducerStep(b) =>
        ProduceKeeps(s, b);
        RunKeeps(Produce(s, b), actions[1..]);
      case ConsumerStep(room) =>
        ConsumeKeeps(s, room);
        RunKeeps(Consume(s, room), actions[1..]);
    }
  }

  /** From a freshly initialised ring, in every reachable state of every interleaving and for every
      buffer size: no size test inside copy or skip fails, the slots between tail and head hold
      exactly the published bytes not yet taken, and the messages delivered, followed by those ahead
      of the decision in progress, are those of the published stream. */
  lemma EveryInterleaving(data: seq<byte>, actions: seq<Action>)
    requires |data| == RING_SLOTS
    ensures SpscInv(Fresh(data))
    ensures var t := Run(Fresh(data), actions);
            && RingHolds(t.ring) && !t.broken
            && t.start <= t.ring.taken <= |t.ring.stream|
            && Parse(t.ring.stream) == Parse(t.ring.stream[t.start..]).After(t.delivered)
  {
    FreshInv(data);
    RunKeeps(Fresh(data), actions);
    var t := Run(Fresh(data), actions);
    AgreesNow(t.ring.stream, t.start, t.delivered);
  }
}

/** A sending transport, a first-in first-out link and a receiving transport, interleaved step by
    step: one byte pushed, one chunk flushed, one completion, some bytes delivered, one poll. */
module Link {
  import opened Types
  import opened Framing
  import opened TransportModel

  /** `pending` is what a send_message call in progress has still to push after `pushed` bytes.
      `rolledBack` records that a rollback branch was taken, and `faults` counts polls that
      discarded bytes or reported an error. */
  datatype System = System(
    src: Endpoint, pending: seq<byte>, pushed: nat, rolledBack: bool,
    link: seq<byte>, dst: Endpoint, faults: nat,
    accepted: seq<seq<byte>>, delivered: seq<seq<byte>>)

  const Start := System(Initial, [], 0, false, [], Initial, 0, [], [])

  datatype Event =
    | Begin(message: seq<byte>, inlineDone: bool)   // enter send_message
    | PushByte                                      // one iteration of its push loops
    | Flush(inlineDone: bool)                       // send_pending
    | Complete                                      // data_sent
    | Transfer(n: nat)                              // n bytes arrive, if they fit
    | PollOnce                                          // get_message with a full-size buffer

  /** The bytes a call handed to the callback. */
  function Emitted(before: Endpoint, after: Endpoint): seq<byte> {
    if |before.chunks| < |after.chunks| then after.chunks[|before.chunks|] else []
  }

  function Next(s: System, cfg: Config, event: Event): System
    requires cfg.maxTx >= 1 && |s.dst.rx| <= RING_CAPACITY
  {
    match event
    case Begin(m, inlineDone) =>
      if s.pending != [] || |m| > MAX_PAYLOAD then s
      else
        var (f, r) := WaitTxSpace(s.src, cfg, |m| + HEADER_SIZE, inlineDone);
        var t := s.(src := f, link := s.link + Emitted(s.src, f));
        if r != Success then t
        else t.(pending := Frame(m), pushed := 0, accepted := s.accepted + [m])
    case PushByte =>
      if s.pending == [] then s
      else if |s.src.tx| < RING_CAPACITY then
        s.(src := s.src.(tx := s.src.tx + [s.pending[0]]), pending := s.pending[1..], pushed := s.pushed + 1)
      else s.(src := Rollback(s.src, s.pushed), pending := [], rolledBack := true)
    case Flush(inlineDone) =>
      var f := SendPending(s.src, cfg, inlineDone).0;
      s.(src := f, link := s.link + Emitted(s.src, f))
    case Complete => s.(src := DataSent(s.src))
    case Transfer(n) =>
      if n <= |s.link| && n <= RING_CAPACITY - |s.dst.rx| then
        s.(link := s.link[n..], dst := DataReceived(s.dst, s.link[..n]).0)
      else s
    case PollOnce =>
      var (f, d) := GetMessage(s.dst, MAX_PAYLOAD);
      s.(dst := f, delivered := s.delivered + d.Messages(),
         faults := s.faults + if d.Wait? || d.Deliver? then 0 else 1)
  }

  /** The messages accepted and not yet delivered. */
  function Undelivered(s: System): seq<seq<byte>>
    requires |s.delivered| <= |s.accepted|
  {
    s.accepted[|s.delivered|..]
  }

  /** Every byte on its way, oldest first. */
  function InTransit(s: System): seq<byte> {
    s.dst.rx + s.link + s.src.tx + s.pending
  }

  /** The delivered messages are the first accepted ones, and what is under way is exactly the
      frames of the others; no rollback and no resynchronisation has happened. */
  ghost predicate Good(s: System, cfg: Config) {
    && ValidConfig(cfg)
    && Inv(s.src, cfg)
    && |s.dst.rx| <= RING_CAPACITY
    && |s.src.tx| + |s.pending| <= RING_CAPACITY
    && !s.rolledBack && s.faults == 0
    && AllFit(s.accepted)
    && s.delivered <= s.accepted
    && InTransit(s) == Frames(Undelivered(s))
  }

  // ---------------------------------------------------------------- every step keeps the invariant

  lemma SendPendingEmits(e: Endpoint, cfg: Config, inlineDone: bool)
    requires ValidConfig(cfg) && Inv(e, cfg)
    ensures var f := SendPending(e, cfg, inlineDone).0;
            Inv(f, cfg) && |f.tx| <= |e.tx| && Emitted(e, f) + f.tx == e.tx
  {
    SendPendingConserves(e, cfg, inlineDone);
  }

  lemma Regroup(a: seq<byte>, b: seq<byte>, c: seq<byte>, d: seq<byte>, e: seq<byte>)
    ensures a + (b + c) + d + e == a + b + (c + d) + e
  {
    assert a + (b + c) + d == a + b + (c + d);
  }

  lemma FlushKeeps(s: System, cfg: Config, inlineDone: bool)
    requires Good(s, cfg)
    ensures Good(Next(s, cfg, Flush(inlineDone)), cfg)
  {
    SendPendingEmits(s.src, cfg, inlineDone);
    hide Inv, SendPending, Frames, Emitted;
    var f := SendPending(s.src, cfg, inlineDone).0;
    Regroup(s.dst.rx, s.link, Emitted(s.src, f), f.tx, s.pending);
    assert InTransit(Next(s, cfg, Flush(inlineDone))) == InTransit(s);
  }

  /** Accepting a message adds its frame behind every byte under way. */
  lemma AcceptKeeps(s: System, cfg: Config, m: seq<byte>)
    requires Good(s, cfg)
    requires s.pending == [] && |m| <= MAX_PAYLOAD && s.src.TxFree() >= |m| + HEADER_SIZE
    ensures Good(s.(pending := Frame(m), pushed := 0, accepted := s.accepted + [m]), cfg)
  {
    hide Inv, Frame;
    var u := s.(pending := Frame(m), pushed := 0, accepted := s.accepted + [m]);
    assert Undelivered(u) == Undelivered(s) + [m];
    FramesAppend(Undelivered(s), [m]);
    assert Frames([m]) == Frame(m) + [] == Frame(m);
    assert InTransit(s) == s.dst.rx + s.link + s.src.tx;
  }

  lemma BeginKeeps(s: System, cfg: Config, m: seq<byte>, inlineDone: bool)
    requires Good(s, cfg)
    ensures Good(Next(s, cfg, Begin(m, inlineDone)), cfg)
  {
    if s.pending == [] && |m| <= MAX_PAYLOAD {
      FlushKeeps(s, cfg, inlineDone);
      hide Good, Inv, Frame, SendPending;
      var (f, r) := WaitTxSpace(s.src, cfg, |m| + HEADER_SIZE, inlineDone);
      var t := s.(src := f, link := s.link + Emitted(s.src, f));
      assert s.link + [] == s.link;
      assert t == s || t == Next(s, cfg, Flush(inlineDone));
      if r == Success {
        AcceptKeeps(t, cfg, m);
      }
    }
  }

  lemma PushByteKeeps(s: System, cfg: Config)
    requires Good(s, cfg)
    ensures Good(Next(s, cfg, PushByte), cfg)
  {
  }

  lemma TransferKeeps(s: System, cfg: Config, n: nat)
    requires Good(s, cfg)
    ensures Good(Next(s, cfg, Transfer(n)), cfg)
  {
    if n <= |s.link| && n <= RING_CAPACITY - |s.dst.rx| {
      assert s.dst.rx + s.link[..n] + s.link[n..] == s.dst.rx + s.link;
    }
  }

  /** On a stream of frames the receiver either waits or delivers the next message. */
  lemma CleanDecision(rx: seq<byte>, later: seq<byte>, ms: seq<seq<byte>>)
    requires AllFit(ms)
    requires rx + later == Frames(ms)
    ensures var d := Decide(rx, MAX_PAYLOAD);
            d.Wait? || (ms != [] && d == Deliver(ms[0]) && rx[d.Consumed()..] + later == Frames(ms[1..]))
    ensures later == [] && ms != [] ==> Decide(rx, MAX_PAYLOAD).Deliver?
  {
    if ms == [] {
      assert rx == [];
    } else {
      DecideFrame(ms[0], Frames(ms[1..]), MAX_PAYLOAD);
      if !Decide(rx, MAX_PAYLOAD).Wait? {
        DecisionStable(rx, later, MAX_PAYLOAD);
        var n := Decide(rx, MAX_PAYLOAD).Consumed();
        assert rx[n..] + later == (rx + later)[n..];
      }
      if later == [] {
        assert rx + later == rx;
      }
    }
  }

  lemma PollKeeps(s: System, cfg: Config)
    requires Good(s, cfg)
    ensures Good(Next(s, cfg, PollOnce), cfg)
  {
    var d := Decide(s.dst.rx, MAX_PAYLOAD);
    var later := s.link + s.src.tx + s.pending;
    var ms := Undelivered(s);
    assert s.dst.rx + later == InTransit(s);
    CleanDecision(s.dst.rx, later, ms);
    hide Decide, Frames, Inv;
    var t := Next(s, cfg, PollOnce);
    assert InTransit(t) == t.dst.rx + later;
    if d.Wait? {
      assert t.delivered == s.delivered;
    } else {
      assert t.delivered == s.delivered + [ms[0]];
      assert Undelivered(t) == ms[1..];
    }
  }

  lemma CompleteKeeps(s: System, cfg: Config)
    requires Good(s, cfg)
    ensures Good(Next(s, cfg, Complete), cfg)
  {
  }

  lemma NextKeeps(s: System, cfg: Config, event: Event)
    requires Good(s, cfg)
    ensures Good(Next(s, cfg, event), cfg)
  {
    hide Next;
    match event
    case Begin(m, inlineDone) => BeginKeeps(s, cfg, m, inlineDone);
    case PushByte => PushByteKeeps(s, cfg);
    case Flush(inlineDone) => FlushKeeps(s, cfg, inlineDone);
    case Complete => CompleteKeeps(s, cfg);
    case Transfer(n) => TransferKeeps(s, cfg, n);
    case PollOnce => PollKeeps(s, cfg);
  }

  // ---------------------------------------------------------------- runs

  ghost function Run(s: System, cfg: Config, events: seq<Event>): System
    requires Good(s, cfg)
    decreases |events|
  {
    if events == [] then s
    else
      NextKeeps(s, cfg, events[0]);
      Run(Next(s, cfg, events[0]), cfg, events[1..])
  }

  /** Over every interleaving: deliveries are an in-order prefix of what was accepted, the bytes
      under way are the frames of the rest, no push ever fails after its reservation and the
      receiver never resynchronises or reports an error. */
  lemma {:induction false} EndToEnd(s: System, cfg: Config, events: seq<Event>)
    requires Good(s, cfg)
    ensures Good(Run(s, cfg, events), cfg)
    decreases |events|
  {
    if events != [] {
      NextKeeps(s, cfg, events[0]);
      EndToEnd(Next(s, cfg, events[0]), cfg, events[1..]);
    }
  }

  lemma StartGood(cfg: Config)
    requires ValidConfig(cfg)
    ensures Good(Start, cfg)
  {
  }

  /** The same, spelt out for two freshly initialised transports. */
  lemma EndToEndFromStart(cfg: Config, events: seq<Event>)
    requires ValidConfig(cfg)
    ensures Good(Start, cfg)
    ensures var t := Run(Start, cfg, events);
            && t.delivered <= t.accepted
            && Frames(t.delivered) + t.dst.rx + t.link + t.src.tx + t.pending == Frames(t.accepted)
            && !t.rolledBack && t.faults == 0
  {
    StartGood(cfg);
    EndToEnd(Start, cfg, events);
    var t := Run(Start, cfg, events);
    FramesAppend(t.delivered, Undelivered(t));
    assert t.delivered + Undelivered(t) == t.accepted;
    assert Frames(t.delivered) + t.dst.rx + t.link + t.src.tx + t.pending == Frames(t.delivered) + InTransit(t);
  }

  /** Once the sender and the link are empty and the receiver is quiescent, everything accepted
      has been delivered. */
  lemma QuiescentDelivered(s: System, cfg: Config)
    requires Good(s, cfg)
    requires s.pending == [] && s.src.tx == [] && s.link == []
    requires Decide(s.dst.rx, MAX_PAYLOAD).Wait?
    ensures s.delivered == s.accepted
  {
    assert InTransit(s) == s.dst.rx;
    CleanDecision(s.dst.rx, [], Undelivered(s));
    assert s.dst.rx + [] == s.dst.rx;
  }

  // ---------------------------------------------------------------- the class's send_message is a run

  lemma {:induction false} RunConcat(s: System, cfg: Config, a: seq<Event>, b: seq<Event>)
    requires Good(s, cfg)
    ensures Good(Run(s, cfg, a), cfg)
    ensures Run(s, cfg, a + b) == Run(Run(s, cfg, a), cfg, b)
    decreases |a|
  {
    if a == [] {
      assert a + b == b;
    } else {
      NextKeeps(s, cfg, a[0]);
      var t := Next(s, cfg, a[0]);
      hide Good, Next;
      assert (a + b)[1..] == a[1..] + b;
      RunConcat(t, cfg, a[1..], b);
    }
  }

  function IrqEvent(irq: Irq): Event {
    match irq
    case DoneIrq => Complete
    case DrainIrq(inlineDone) => Flush(inlineDone)
  }

  function IrqEvents(irqs: seq<Irq>): seq<Event> {
    if irqs == [] then [] else [IrqEvent(irqs[0])] + IrqEvents(irqs[1..])
  }

  /** The pushes of `n` bytes, each followed by its interrupts. */
  function PushEvents(n: nat, pushed: nat, schedule: seq<seq<Irq>>): seq<Event>
    decreases n
  {
    if n == 0 then []
    else [PushByte] + (IrqEvents(IrqsAt(schedule, pushed)) + PushEvents(n - 1, pushed + 1, schedule))
  }

  lemma RunFirst(s: System, cfg: Config, event: Event, rest: seq<Event>)
    requires Good(s, cfg)
    ensures Good(Next(s, cfg, event), cfg)
    ensures Run(s, cfg, [event] + rest) == Run(Next(s, cfg, event), cfg, rest)
  {
    NextKeeps(s, cfg, event);
    hide Good, Next;
    assert ([event] + rest)[1..] == rest;
  }

  lemma {:induction false} RunIrqs(s: System, cfg: Config, irqs: seq<Irq>)
    requires Good(s, cfg)
    ensures var t := Run(s, cfg, IrqEvents(irqs));
            && Good(t, cfg)
            && t.src == Interrupt(s.src, cfg, irqs) && t.pending == s.pending && t.pushed == s.pushed
    decreases |irqs|
  {
    if irqs != [] {
      RunFirst(s, cfg, IrqEvent(irqs[0]), IrqEvents(irqs[1..]));
      RunIrqs(Next(s, cfg, IrqEvent(irqs[0])), cfg, irqs[1..]);
    }
  }

  /** The push loops of send_message, with any interrupts, are a run of the system. */
  lemma {:induction false} PushesAreRun(s: System, cfg: Config, schedule: seq<seq<Irq>>)
    requires Good(s, cfg)
    ensures var t := Run(s, cfg, PushEvents(|s.pending|, s.pushed, schedule));
            t.pending == [] && (t.src, Success) == PushBytes(s.src, cfg, s.pending, s.pushed, schedule)
    decreases |s.pending|
  {
    if s.pending != [] {
      var irqs := IrqsAt(schedule, s.pushed);
      var later := PushEvents(|s.pending| - 1, s.pushed + 1, schedule);
      var t := Next(s, cfg, PushByte);
      RunFirst(s, cfg, PushByte, IrqEvents(irqs) + later);
      assert t.pending == s.pending[1..] && t.pushed == s.pushed + 1;
      hide Good, Next, Interrupt;
      RunIrqs(t, cfg, irqs);
      RunConcat(t, cfg, IrqEvents(irqs), later);
      PushesAreRun(Run(t, cfg, IrqEvents(irqs)), cfg, schedule);
    }
  }

  /** So a whole send_message call, as the transport object performs it, is a run too. */
  lemma SendMessageIsRun(s: System, cfg: Config, m: seq<byte>, inlineDone: bool, schedule: seq<seq<Irq>>)
    requires Good(s, cfg) && s.pending == [] && |m| <= MAX_PAYLOAD
    ensures var (f, r) := SendMessage(s.src, cfg, Some(m), inlineDone, schedule);
            var t := Next(s, cfg, Begin(m, inlineDone));
            && Good(t, cfg)
            && Run(t, cfg, PushEvents(|t.pending|, t.pushed, schedule)).src == f
            && (r == Success <==> t.accepted == s.accepted + [m])
  {
    NextKeeps(s, cfg, Begin(m, inlineDone));
    var t := Next(s, cfg, Begin(m, inlineDone));
    PushesAreRun(t, cfg, schedule);
  }

  // ---------------------------------------------------------------- progress

  /** How far the bytes under way still have to go, and whether a chunk is in flight. */
  function Work(s: System): nat {
    2 * (4 * |s.pending| + 3 * |s.src.tx| + 2 * |s.link| + |s.dst.rx|)
    + if s.src.state == Sending then 1 else 0
  }

  /** Every step other than a new send_message changes nothing or brings the system closer to done. */
  lemma InternalStep(s: System, cfg: Config, event: Event)
    requires Good(s, cfg)
    requires !event.Begin?
    ensures var t := Next(s, cfg, event);
            t.accepted == s.accepted && (t == s || Work(t) < Work(s))
  {
    if event.Flush? {
      SendPendingEmits(s.src, cfg, event.inlineDone);
      assert s.link + [] == s.link;
    } else if event.PollOnce? {
      assert s.delivered + [] == s.delivered;
    }
  }

  /** No deadlock: while something is undelivered, some step makes progress. */
  lemma SomeStepHelps(s: System, cfg: Config) returns (event: Event)
    requires Good(s, cfg) && cfg.hasCallback
    requires s.delivered != s.accepted
    ensures !event.Begin? && Work(Next(s, cfg, event)) < Work(s)
  {
    if s.pending != [] {
      event := PushByte;
    } else if s.src.state == Sending {
      event := Complete;
    } else if s.src.tx != [] {
      event := Flush(false);
    } else if s.link != [] && |s.dst.rx| < RING_CAPACITY {
      event := Transfer(1);
    } else {
      event := PollOnce;
      if s.link == [] && Decide(s.dst.rx, MAX_PAYLOAD).Wait? {
        QuiescentDelivered(s, cfg);
      }
      PollKeeps(s, cfg);
      assert Decide(s.dst.rx, MAX_PAYLOAD).Consumed() > 0;
    }
  }

  /** From every reachable state the system can be driven, without further sends, to a state in
      which everything accepted has been delivered. */
  lemma {:induction false} CanFinish(s: System, cfg: Config) returns (events: seq<Event>)
    requires Good(s, cfg) && cfg.hasCallback
    ensures forall i | 0 <= i < |events| :: !events[i].Begin?
    ensures |events| <= Work(s)
    ensures Run(s, cfg, events).accepted == s.accepted
    ensures Run(s, cfg, events).delivered == s.accepted
    decreases Work(s)
  {
    if s.delivered == s.accepted {
      events := [];
    } else {
      var event := SomeStepHelps(s, cfg);
      InternalStep(s, cfg, event);
      NextKeeps(s, cfg, event);
      var rest := CanFinish(Next(s, cfg, event), cfg);
      events := [event] + rest;
      assert events[1..] == rest;
    }
  }
}

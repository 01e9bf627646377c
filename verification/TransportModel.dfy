/** The transport of src/transport.c as functions on its queues: what each call does to them,
    and what every run of calls keeps. The class in Transport.dfy is proved equal to these functions. */
module TransportModel {
  import opened Types
  import opened Framing

  datatype TxState = Idle | Sending

  /** whad_transport_cfg_t; the send callback is either set or NULL. */
  datatype Config = Config(maxTx: int, hasCallback: bool)

  ghost predicate ValidConfig(cfg: Config) {
    cfg.maxTx >= 1
  }

  /** `chunks` are the buffers handed to the send callback, oldest first, and `completions` counts
      the data_sent calls that ended a transmission. */
  datatype Endpoint = Endpoint(
    rx: seq<byte>, tx: seq<byte>, state: TxState, chunks: seq<seq<byte>>, completions: nat)
  {
    /** Every byte that has left through the callback. */
    function Wire(): seq<byte> {
      Flatten(chunks)
    }

    /** Every byte sent or queued for sending. */
    function Outgoing(): seq<byte> {
      Wire() + tx
    }

    function TxFree(): int {
      RING_CAPACITY - |tx|
    }
  }

  const Initial := Endpoint([], [], Idle, [], 0)

  ghost predicate ValidChunk(cfg: Config, c: seq<byte>) {
    1 <= |c| <= Min(RING_CAPACITY, cfg.maxTx)
  }

  /** What every call keeps: the queues fit their rings, at most one chunk is in flight, the state
      is Sending exactly when one is, and no chunk is empty or larger than configured. */
  ghost predicate Inv(e: Endpoint, cfg: Config) {
    && |e.rx| <= RING_CAPACITY
    && |e.tx| <= RING_CAPACITY
    && |e.chunks| - e.completions == (if e.state == Sending then 1 else 0)
    && forall i | 0 <= i < |e.chunks| :: ValidChunk(cfg, e.chunks[i])
  }

  // ---------------------------------------------------------------- the calls

  /** Bytes are queued one by one until the ring is full. */
  function DataReceived(e: Endpoint, bytes: seq<byte>): (Endpoint, Status)
    requires |e.rx| <= RING_CAPACITY
  {
    var room := RING_CAPACITY - |e.rx|;
    if |bytes| <= room then (e.(rx := e.rx + bytes), Success)
    else (e.(rx := e.rx + bytes[..room]), RingFull)
  }

  function DataSent(e: Endpoint): Endpoint {
    if e.state == Sending then e.(state := Idle, completions := e.completions + 1) else e
  }

  /** `inlineDone`: the callback calls data_sent before it returns. */
  function SendPending(e: Endpoint, cfg: Config, inlineDone: bool): (Endpoint, Status)
    requires cfg.maxTx >= 1
  {
    if e.state != Idle then (e, Error)
    else if !cfg.hasCallback then (e, Success)
    else if e.tx == [] then (e, RingEmpty)
    else
      var n := Min(|e.tx|, cfg.maxTx);
      var called := e.(state := Sending, chunks := e.chunks + [e.tx[..n]]);
      var returned := if inlineDone then DataSent(called) else called;
      (returned.(tx := e.tx[n..]), Success)
  }

  function WaitTxSpace(e: Endpoint, cfg: Config, size: int, inlineDone: bool): (Endpoint, Status)
    requires cfg.maxTx >= 1
  {
    if e.TxFree() >= size then (e, Success)
    else
      var f := if e.state == Idle then SendPending(e, cfg, inlineDone).0 else e;
      (f, if f.TxFree() >= size then Success else RingFull)
  }

  /** What may interrupt send_message between two pushes. */
  datatype Irq = DoneIrq | DrainIrq(inlineDone: bool)

  function Interrupt(e: Endpoint, cfg: Config, irqs: seq<Irq>): Endpoint
    requires cfg.maxTx >= 1
    decreases |irqs|
  {
    if irqs == [] then e
    else
      var f := match irqs[0]
               case DoneIrq => DataSent(e)
               case DrainIrq(inlineDone) => SendPending(e, cfg, inlineDone).0;
      Interrupt(f, cfg, irqs[1..])
  }

  function IrqsAt(schedule: seq<seq<Irq>>, k: nat): seq<Irq> {
    if k < |schedule| then schedule[k] else []
  }

  /** skip(pushed), the answer to a push that fails: it drops the OLDEST queued bytes. */
  function Rollback(e: Endpoint, pushed: nat): Endpoint {
    if pushed <= |e.tx| then e.(tx := e.tx[pushed..]) else e
  }

  /** Queues bytes one by one, after `pushed` earlier ones; interrupts run after each push. */
  function PushBytes(e: Endpoint, cfg: Config, bytes: seq<byte>, pushed: nat, schedule: seq<seq<Irq>>)
    : (Endpoint, Status)
    requires cfg.maxTx >= 1
    decreases |bytes|
  {
    if bytes == [] then (e, Success)
    else if |e.tx| >= RING_CAPACITY then (Rollback(e, pushed), RingFull)
    else
      var f := Interrupt(e.(tx := e.tx + [bytes[0]]), cfg, IrqsAt(schedule, pushed));
      PushBytes(f, cfg, bytes[1..], pushed + 1, schedule)
  }

  /** `message` is None when the arguments are rejected: NULL data of positive size, a negative
      size or one above 1019. */
  function SendMessage(e: Endpoint, cfg: Config, message: Option<seq<byte>>, inlineDone: bool,
                       schedule: seq<seq<Irq>>)
    : (Endpoint, Status)
    requires cfg.maxTx >= 1
  {
    match message
    case None => (e, Error)
    case Some(m) =>
      var (f, r) := WaitTxSpace(e, cfg, |m| + HEADER_SIZE, inlineDone);
      if r != Success then (f, RingFull) else PushBytes(f, cfg, Frame(m), 0, schedule)
  }

  function GetMessage(e: Endpoint, room: int): (Endpoint, Decision) {
    var d := Decide(e.rx, room);
    (e.(rx := e.rx[d.Consumed()..]), d)
  }

  // ---------------------------------------------------------------- one call

  lemma ChunkMoves(wire: seq<byte>, tx: seq<byte>, n: nat)
    requires n <= |tx|
    ensures wire + tx[..n] + tx[n..] == wire + tx
  {
    assert tx == tx[..n] + tx[n..];
  }

  lemma TakenKeepsInv(e: Endpoint, cfg: Config, n: nat)
    requires Inv(e, cfg) && n <= |e.rx|
    ensures Inv(e.(rx := e.rx[n..]), cfg)
  {
  }

  /** Sending pending bytes moves them from the queue to the wire, keeping their order. */
  lemma SendPendingConserves(e: Endpoint, cfg: Config, inlineDone: bool)
    requires ValidConfig(cfg) && Inv(e, cfg)
    ensures var f := SendPending(e, cfg, inlineDone).0;
            Inv(f, cfg) && f.rx == e.rx && f.Outgoing() == e.Outgoing() && |f.tx| <= |e.tx|
  {
    var f := SendPending(e, cfg, inlineDone).0;
    if f.chunks != e.chunks {
      var n := Min(|e.tx|, cfg.maxTx);
      FlattenAppend(e.chunks, e.tx[..n]);
      ChunkMoves(e.Wire(), e.tx, n);
    }
  }

  /** Every status of send_pending, and what it has done: after a success with a callback one more
      chunk is out, the first max_txbuf_size queued bytes or all of them; otherwise nothing. */
  lemma SendPendingExactly(e: Endpoint, cfg: Config, inlineDone: bool)
    requires ValidConfig(cfg) && Inv(e, cfg)
    ensures var (f, r) := SendPending(e, cfg, inlineDone);
            && (r == Error <==> e.state == Sending)
            && (r == RingEmpty <==> e.state == Idle && cfg.hasCallback && e.tx == [])
            && (r == Success <==> e.state == Idle && (!cfg.hasCallback || e.tx != []))
            && (f == e <==> r != Success || !cfg.hasCallback)
            && (f != e ==>
                  && f == e.(tx := f.tx, state := f.state, chunks := f.chunks, completions := f.completions)
                  && |f.chunks| == |e.chunks| + 1 && f.chunks[..|e.chunks|] == e.chunks
                  && f.chunks[|e.chunks|] + f.tx == e.tx
                  && |f.chunks[|e.chunks|]| == Min(|e.tx|, cfg.maxTx)
                  && f.state == (if inlineDone then Idle else Sending))
  {
    var f := SendPending(e, cfg, inlineDone).0;
    if f.chunks != e.chunks {
      var n := Min(|e.tx|, cfg.maxTx);
      assert e.tx[..n] + e.tx[n..] == e.tx;
    }
  }

  /** data_sent leaves no chunk in flight, and a callback that completes before it returns has the
      effect of a completion right after the call. */
  lemma CompletionExactly(e: Endpoint, cfg: Config)
    requires ValidConfig(cfg) && Inv(e, cfg)
    ensures var f := DataSent(e);
            && f == e.(state := Idle, completions := |e.chunks|) && Inv(f, cfg)
            && (f == e <==> e.state == Idle)
    ensures var (f, r) := SendPending(e, cfg, false);
            r == Success ==> SendPending(e, cfg, true) == (DataSent(f), Success)
  {
  }

  /** Bytes are kept in order up to a full ring: all of them, or as many as still fit with an error. */
  lemma ReceivedExactly(e: Endpoint, bytes: seq<byte>)
    requires |e.rx| <= RING_CAPACITY
    ensures var (f, r) := DataReceived(e, bytes);
            && f == e.(rx := f.rx) && e.rx <= f.rx <= e.rx + bytes
            && |f.rx| == Min(|e.rx| + |bytes|, 1023)
            && r == if |e.rx| + |bytes| <= 1023 then Success else RingFull
  {
  }

  /** Receiving in two calls is receiving in one, unless the first reports a full ring. */
  lemma ReceivedInPieces(e: Endpoint, a: seq<byte>, b: seq<byte>)
    requires |e.rx| <= RING_CAPACITY
    ensures var (f, r) := DataReceived(e, a);
            r == Success ==> DataReceived(e, a + b) == DataReceived(f, b)
  {
    var room := RING_CAPACITY - |e.rx|;
    if |a| <= room {
      assert e.rx + (a + b) == e.rx + a + b;
      assert |a| + |b| > room ==> (a + b)[..room] == a + b[..room - |a|];
      assert e.rx + (a + b[..Min(|b|, room - |a|)]) == e.rx + a + b[..Min(|b|, room - |a|)];
    }
  }

  lemma {:induction false} InterruptConserves(e: Endpoint, cfg: Config, irqs: seq<Irq>)
    requires ValidConfig(cfg) && Inv(e, cfg)
    ensures var f := Interrupt(e, cfg, irqs);
            Inv(f, cfg) && f.rx == e.rx && f.Outgoing() == e.Outgoing() && |f.tx| <= |e.tx|
    decreases |irqs|
  {
    if irqs != [] {
      if irqs[0].DrainIrq? {
        SendPendingConserves(e, cfg, irqs[0].inlineDone);
        InterruptConserves(SendPending(e, cfg, irqs[0].inlineDone).0, cfg, irqs[1..]);
      } else {
        InterruptConserves(DataSent(e), cfg, irqs[1..]);
      }
    }
  }

  /** After the reservation every push succeeds, whatever interrupts drain in between: the
      rollback branches are never taken, and the bytes stay contiguous. */
  lemma {:induction false} PushBytesReserved(e: Endpoint, cfg: Config, bytes: seq<byte>, pushed: nat,
                                             schedule: seq<seq<Irq>>)
    requires ValidConfig(cfg) && Inv(e, cfg)
    requires e.TxFree() >= |bytes|
    ensures var (f, r) := PushBytes(e, cfg, bytes, pushed, schedule);
            r == Success && Inv(f, cfg) && f.rx == e.rx && f.Outgoing() == e.Outgoing() + bytes
    decreases |bytes|
  {
    if bytes == [] {
      assert e.Outgoing() + bytes == e.Outgoing();
    } else {
      var g := e.(tx := e.tx + [bytes[0]]);
      var f := Interrupt(g, cfg, IrqsAt(schedule, pushed));
      InterruptConserves(g, cfg, IrqsAt(schedule, pushed));
      PushBytesReserved(f, cfg, bytes[1..], pushed + 1, schedule);
      assert f.Outgoing() + bytes[1..] == e.Outgoing() + bytes by {
        assert f.Outgoing() == e.Wire() + (e.tx + [bytes[0]]);
        assert [bytes[0]] + bytes[1..] == bytes;
      }
    }
  }

  /** Pushing a header and then a payload is pushing a frame. */
  lemma {:induction false} PushBytesSplit(e: Endpoint, cfg: Config, a: seq<byte>, b: seq<byte>, pushed: nat,
                                          schedule: seq<seq<Irq>>)
    requires ValidConfig(cfg)
    ensures var (f, r) := PushBytes(e, cfg, a, pushed, schedule);
            PushBytes(e, cfg, a + b, pushed, schedule) ==
            if r == Success then PushBytes(f, cfg, b, pushed + |a|, schedule) else (f, r)
    decreases |a|
  {
    if a == [] {
      assert a + b == b;
    } else if |e.tx| < RING_CAPACITY {
      var f := Interrupt(e.(tx := e.tx + [a[0]]), cfg, IrqsAt(schedule, pushed));
      assert (a + b)[1..] == a[1..] + b;
      PushBytesSplit(f, cfg, a[1..], b, pushed + 1, schedule);
    }
  }

  /** A successful send adds one whole frame to what is sent or queued; a failed one adds nothing. */
  lemma SendMessageConserves(e: Endpoint, cfg: Config, message: Option<seq<byte>>, inlineDone: bool,
                             schedule: seq<seq<Irq>>)
    requires ValidConfig(cfg) && Inv(e, cfg)
    ensures var (f, r) := SendMessage(e, cfg, message, inlineDone, schedule);
            && Inv(f, cfg) && f.rx == e.rx
            && (r == Success ==> message.Some?)
            && f.Outgoing() == e.Outgoing() + if r == Success then Frame(message.value) else []
  {
    if message.Some? {
      SendPendingConserves(e, cfg, inlineDone);
      var (f, r) := WaitTxSpace(e, cfg, |message.value| + HEADER_SIZE, inlineDone);
      if r == Success {
        PushBytesReserved(f, cfg, Frame(message.value), 0, schedule);
      }
    }
    assert e.Outgoing() + [] == e.Outgoing();
  }

  lemma {:induction false} PushBytesUninterrupted(e: Endpoint, cfg: Config, bytes: seq<byte>, pushed: nat)
    requires ValidConfig(cfg)
    requires e.TxFree() >= |bytes|
    ensures PushBytes(e, cfg, bytes, pushed, []) == (e.(tx := e.tx + bytes), Success)
    decreases |bytes|
  {
    if bytes == [] {
      assert e.tx + bytes == e.tx;
    } else {
      PushBytesUninterrupted(e.(tx := e.tx + [bytes[0]]), cfg, bytes[1..], pushed + 1);
      assert e.tx + [bytes[0]] + bytes[1..] == e.tx + bytes;
    }
  }

  /** Without interrupts a message is appended as one frame if that fits, or fits after one chunk has
      been flushed; otherwise the flush is all that happens. */
  lemma SendMessageUninterrupted(e: Endpoint, cfg: Config, m: seq<byte>, inlineDone: bool)
    requires ValidConfig(cfg)
    ensures var f := if e.TxFree() >= |m| + HEADER_SIZE then e else SendPending(e, cfg, inlineDone).0;
            SendMessage(e, cfg, Some(m), inlineDone, []) ==
            if f.TxFree() >= |m| + HEADER_SIZE then (f.(tx := f.tx + Frame(m)), Success) else (f, RingFull)
  {
    var f := WaitTxSpace(e, cfg, |m| + HEADER_SIZE, inlineDone).0;
    if f.TxFree() >= |m| + HEADER_SIZE {
      PushBytesUninterrupted(f, cfg, Frame(m), 0);
    }
  }

  /** The rollback would not restore the queue: a push loop that runs out of space drops as many of
      the oldest bytes as it has pushed. */
  lemma {:induction false} RollbackDropsOldest(e: Endpoint, cfg: Config, bytes: seq<byte>, pushed: nat)
    requires ValidConfig(cfg)
    requires |e.tx| <= RING_CAPACITY < |e.tx| + |bytes|
    requires pushed <= |e.tx|
    ensures var all := e.tx + bytes[..e.TxFree()];
            PushBytes(e, cfg, bytes, pushed, []) == (e.(tx := all[pushed + e.TxFree()..]), RingFull)
    decreases |bytes|
  {
    if e.TxFree() > 0 {
      var f := e.(tx := e.tx + [bytes[0]]);
      RollbackDropsOldest(f, cfg, bytes[1..], pushed + 1);
      assert f.tx + bytes[1..][..f.TxFree()] == e.tx + bytes[..e.TxFree()];
    } else {
      assert e.tx + bytes[..0] == e.tx;
    }
  }

  /** Exactly when the reservation finds `size` bytes of space, and its answer when it does not. */
  lemma ReservesExactly(e: Endpoint, cfg: Config, size: int, inlineDone: bool)
    requires ValidConfig(cfg) && Inv(e, cfg)
    ensures WaitTxSpace(e, cfg, size, inlineDone).1 ==
            if || e.TxFree() >= size
               || (&& e.state == Idle && cfg.hasCallback
                   && e.TxFree() + Min(|e.tx|, cfg.maxTx) >= size)
            then Success else RingFull
  {
    SendPendingConserves(e, cfg, inlineDone);
  }

  /** Exactly when a legal message is accepted, whatever the interrupts do. */
  lemma AcceptedExactly(e: Endpoint, cfg: Config, m: seq<byte>, inlineDone: bool, schedule: seq<seq<Irq>>)
    requires ValidConfig(cfg) && Inv(e, cfg)
    ensures SendMessage(e, cfg, Some(m), inlineDone, schedule).1 in {Success, RingFull}
    ensures SendMessage(e, cfg, Some(m), inlineDone, schedule).1 == Success <==>
              || e.TxFree() >= |m| + HEADER_SIZE
              || (&& e.state == Idle && cfg.hasCallback
                  && e.TxFree() + Min(|e.tx|, cfg.maxTx) >= |m| + HEADER_SIZE)
  {
    SendPendingConserves(e, cfg, inlineDone);
    var (f, r) := WaitTxSpace(e, cfg, |m| + HEADER_SIZE, inlineDone);
    if r == Success {
      PushBytesReserved(f, cfg, Frame(m), 0, schedule);
    }
  }

  /** An empty queue accepts every legal size. */
  lemma EmptyQueueAccepts(e: Endpoint, cfg: Config, m: seq<byte>, inlineDone: bool, schedule: seq<seq<Irq>>)
    requires ValidConfig(cfg) && Inv(e, cfg)
    requires e.tx == [] && |m| <= MAX_PAYLOAD
    ensures SendMessage(e, cfg, Some(m), inlineDone, schedule).1 == Success
  {
    AcceptedExactly(e, cfg, m, inlineDone, schedule);
  }

  /** A refused message leaves the queue itself as it was exactly when nothing could be flushed to
      make room: otherwise a chunk has gone out, although nothing of the message has. */
  lemma RefusedLeavesQueue(e: Endpoint, cfg: Config, m: seq<byte>, inlineDone: bool, schedule: seq<seq<Irq>>)
    requires ValidConfig(cfg) && Inv(e, cfg) && |m| <= MAX_PAYLOAD
    requires SendMessage(e, cfg, Some(m), inlineDone, schedule).1 != Success
    ensures SendMessage(e, cfg, Some(m), inlineDone, schedule).0.tx == e.tx
       <==> e.state == Sending || !cfg.hasCallback
  {
    AcceptedExactly(e, cfg, m, inlineDone, schedule);
    SendPendingConserves(e, cfg, inlineDone);
    var (f, r) := WaitTxSpace(e, cfg, |m| + HEADER_SIZE, inlineDone);
    if r == Success {
      PushBytesReserved(f, cfg, Frame(m), 0, schedule);
    }
  }

  /** For instance: a device that sends one byte at a time queues a message of the largest size and
      then offers an empty one. The empty one is refused, and one queued byte has gone out. */
  lemma RefusedMayFlush()
    ensures var cfg := Config(1, true);
            var (e, first) := SendMessage(Initial, cfg, Some(seq(MAX_PAYLOAD, _ => 0 as byte)), false, []);
            var (f, second) := SendMessage(e, cfg, Some([]), false, []);
            first == Success && second == RingFull && |f.tx| == |e.tx| - 1
  {
    var cfg := Config(1, true);
    var m := seq(MAX_PAYLOAD, _ => 0 as byte);
    EmptyQueueAccepts(Initial, cfg, m, false, []);
    SendMessageUninterrupted(Initial, cfg, m, false);
  }

  // ---------------------------------------------------------------- the drain loop

  /** `rounds` times send_pending followed by data_sent. */
  function Drain(e: Endpoint, cfg: Config, rounds: nat): Endpoint
    requires cfg.maxTx >= 1
    decreases rounds
  {
    if rounds == 0 then e else Drain(DataSent(SendPending(e, cfg, false).0), cfg, rounds - 1)
  }

  /** What `rounds` chunks of full size add up to. */
  function Capacity(rounds: nat, maxTx: nat): nat {
    if rounds == 0 then 0 else maxTx + Capacity(rounds - 1, maxTx)
  }

  lemma {:induction false} CapacityIsProduct(rounds: nat, maxTx: nat)
    ensures Capacity(rounds, maxTx) == rounds * maxTx
    decreases rounds
  {
    if rounds > 0 {
      CapacityIsProduct(rounds - 1, maxTx);
      assert rounds * maxTx == (rounds - 1) * maxTx + maxTx;
    }
  }

  lemma RoundTakes(e: Endpoint, cfg: Config)
    requires ValidConfig(cfg) && cfg.hasCallback && Inv(e, cfg) && e.state == Idle
    ensures var f := DataSent(SendPending(e, cfg, false).0);
            && Inv(f, cfg) && f.state == Idle && f.Outgoing() == e.Outgoing()
            && f.tx == e.tx[Min(cfg.maxTx, |e.tx|)..]
  {
    SendPendingConserves(e, cfg, false);
  }

  lemma SliceTwice(s: seq<byte>, a: nat, b: nat)
    ensures var t := s[Min(a, |s|)..]; t[Min(b, |t|)..] == s[Min(a + b, |s|)..]
  {
  }

  /** Where `rounds` rounds leave a transport. */
  ghost predicate Drained(e: Endpoint, cfg: Config, rounds: nat, f: Endpoint)
    requires ValidConfig(cfg)
  {
    && Inv(f, cfg) && f.state == Idle && f.Outgoing() == e.Outgoing()
    && f.tx == e.tx[Min(Capacity(rounds, cfg.maxTx), |e.tx|)..]
  }

  lemma RoundThenRounds(e: Endpoint, cfg: Config, rounds: nat, f: Endpoint)
    requires ValidConfig(cfg) && cfg.hasCallback && Inv(e, cfg) && e.state == Idle && rounds > 0
    requires Drained(DataSent(SendPending(e, cfg, false).0), cfg, rounds - 1, f)
    ensures Drained(e, cfg, rounds, f)
  {
    hide SendPending, DataSent, Inv;
    RoundTakes(e, cfg);
    SliceTwice(e.tx, cfg.maxTx, Capacity(rounds - 1, cfg.maxTx));
  }

  /** Each round takes one chunk off the queue until it is empty. */
  lemma {:induction false} DrainTakes(e: Endpoint, cfg: Config, rounds: nat)
    requires ValidConfig(cfg) && cfg.hasCallback && Inv(e, cfg) && e.state == Idle
    ensures Drained(e, cfg, rounds, Drain(e, cfg, rounds))
    decreases rounds
  {
    if rounds > 0 {
      hide SendPending, DataSent, Inv, Drained;
      RoundTakes(e, cfg);
      var g := DataSent(SendPending(e, cfg, false).0);
      DrainTakes(g, cfg, rounds - 1);
      RoundThenRounds(e, cfg, rounds, Drain(g, cfg, rounds - 1));
    }
  }

  /** n queued bytes are gone after ceil(n / maxTx) rounds and not before: after the first number of
      rounds whose product with maxTx reaches n. */
  lemma DrainBound(e: Endpoint, cfg: Config, rounds: nat)
    requires ValidConfig(cfg) && cfg.hasCallback && Inv(e, cfg) && e.state == Idle
    ensures Drain(e, cfg, rounds).tx == [] <==> rounds * cfg.maxTx >= |e.tx|
  {
    DrainTakes(e, cfg, rounds);
    CapacityIsProduct(rounds, cfg.maxTx);
  }

  /** send_pending and data_sent in turn, as long as send_pending reports success: where that ends,
      with which status, and after how many rounds. */
  function DrainLoop(e: Endpoint, cfg: Config): (result: (Endpoint, Status, nat))
    requires cfg.maxTx >= 1 && cfg.hasCallback
    decreases |e.tx|
  {
    var (f, r) := SendPending(e, cfg, false);
    if r != Success then (f, r, 0)
    else
      var (g, s, rounds) := DrainLoop(DataSent(f), cfg);
      (g, s, rounds + 1)
  }

  /** The status ends the loop exactly when everything has been sent, which takes the number of
      rounds of DrainBound. */
  lemma {:induction false} DrainLoopEmpties(e: Endpoint, cfg: Config)
    requires ValidConfig(cfg) && cfg.hasCallback && Inv(e, cfg) && e.state == Idle
    ensures var (f, r, rounds) := DrainLoop(e, cfg);
            && r == RingEmpty && f == Drain(e, cfg, rounds)
            && f.tx == [] && f.state == Idle && f.Wire() == e.Outgoing()
            && (rounds > 0 ==> Drain(e, cfg, rounds - 1).tx != [])
    decreases |e.tx|
  {
    SendPendingExactly(e, cfg, false);
    if e.tx == [] {
      assert e.Wire() + [] == e.Wire();
    } else {
      RoundTakes(e, cfg);
      DrainLoopEmpties(DataSent(SendPending(e, cfg, false).0), cfg);
    }
  }

  lemma {:induction false} NothingToCall(e: Endpoint, cfg: Config, rounds: nat)
    requires ValidConfig(cfg) && !cfg.hasCallback && e.state == Idle
    ensures Drain(e, cfg, rounds) == e
    decreases rounds
  {
    if rounds > 0 {
      NothingToCall(e, cfg, rounds - 1);
    }
  }

  /** Without a callback an idle transport reports success for ever and the loop does not end. */
  lemma DrainLoopEnds(e: Endpoint, cfg: Config)
    requires ValidConfig(cfg) && Inv(e, cfg)
    ensures (exists rounds: nat :: SendPending(Drain(e, cfg, rounds), cfg, false).1 != Success)
       <==> cfg.hasCallback || e.state == Sending
  {
    if e.state == Sending {
      assert SendPending(Drain(e, cfg, 0), cfg, false).1 != Success;
    } else if cfg.hasCallback {
      DrainLoopEmpties(e, cfg);
      assert SendPending(Drain(e, cfg, DrainLoop(e, cfg).2), cfg, false).1 != Success;
    } else {
      forall rounds: nat
        ensures SendPending(Drain(e, cfg, rounds), cfg, false).1 == Success
      {
        NothingToCall(e, cfg, rounds);
      }
    }
  }

  // ---------------------------------------------------------------- runs

  /** One call, with the choices its environment makes. */
  datatype Call =
    | Received(bytes: seq<byte>)
    | Send(message: Option<seq<byte>>, inlineDone: bool, schedule: seq<seq<Irq>>)
    | Pending(inlineDone: bool)
    | Sent
    | Poll(room: int)

  function Step(e: Endpoint, cfg: Config, call: Call): Endpoint
    requires cfg.maxTx >= 1 && |e.rx| <= RING_CAPACITY
  {
    match call
    case Received(bytes) => DataReceived(e, bytes).0
    case Send(message, inlineDone, schedule) => SendMessage(e, cfg, message, inlineDone, schedule).0
    case Pending(inlineDone) => SendPending(e, cfg, inlineDone).0
    case Sent => DataSent(e)
    case Poll(room) => GetMessage(e, room).0
  }

  /** The message a call accepts for sending, if any. */
  function Accepts(e: Endpoint, cfg: Config, call: Call): seq<seq<byte>>
    requires cfg.maxTx >= 1
  {
    if call.Send? && call.message.Some?
       && SendMessage(e, cfg, call.message, call.inlineDone, call.schedule).1 == Success
    then [call.message.value] else []
  }

  /** The bytes a call adds to the receive queue. */
  function Takes(e: Endpoint, call: Call): seq<byte>
    requires |e.rx| <= RING_CAPACITY
  {
    if call.Received? then DataReceived(e, call.bytes).0.rx[|e.rx|..] else []
  }

  /** The message a call returns, if any. */
  function Returns(e: Endpoint, call: Call): seq<seq<byte>> {
    if call.Poll? then GetMessage(e, call.room).1.Messages() else []
  }

  lemma StepKeepsInv(e: Endpoint, cfg: Config, call: Call)
    requires ValidConfig(cfg) && Inv(e, cfg)
    ensures Inv(Step(e, cfg, call), cfg)
  {
    match call
    case Send(message, inlineDone, schedule) => SendMessageConserves(e, cfg, message, inlineDone, schedule);
    case Pending(inlineDone) => SendPendingConserves(e, cfg, inlineDone);
    case _ =>
  }

  /** A run's final state and its observable history. */
  datatype History = History(
    end: Endpoint, accepted: seq<seq<byte>>, received: seq<byte>, delivered: seq<seq<byte>>)

  ghost function Run(e: Endpoint, cfg: Config, calls: seq<Call>): (h: History)
    requires ValidConfig(cfg) && Inv(e, cfg)
    decreases |calls|
  {
    if calls == [] then History(e, [], [], [])
    else
      StepKeepsInv(e, cfg, calls[0]);
      var h := Run(Step(e, cfg, calls[0]), cfg, calls[1..]);
      History(h.end, Accepts(e, cfg, calls[0]) + h.accepted,
              Takes(e, calls[0]) + h.received, Returns(e, calls[0]) + h.delivered)
  }

  lemma StepSends(e: Endpoint, cfg: Config, call: Call)
    requires ValidConfig(cfg) && Inv(e, cfg)
    ensures Step(e, cfg, call).Outgoing() == e.Outgoing() + Frames(Accepts(e, cfg, call))
  {
    assert e.Outgoing() + [] == e.Outgoing();
    match call
    case Send(message, inlineDone, schedule) =>
      SendMessageConserves(e, cfg, message, inlineDone, schedule);
      if message.Some? {
        assert Frames([message.value]) == Frame(message.value) + [] == Frame(message.value);
      }
    case Pending(inlineDone) =>
      SendPendingConserves(e, cfg, inlineDone);
    case _ =>
  }

  lemma FramesChain(x: seq<byte>, ms: seq<seq<byte>>, ns: seq<seq<byte>>)
    ensures x + Frames([]) == x
    ensures x + Frames(ms) + Frames(ns) == x + Frames(ms + ns)
  {
    FramesAppend(ms, ns);
    hide Frame;
    assert x + Frames(ms) + Frames(ns) == x + (Frames(ms) + Frames(ns));
  }

  /** Over every run of calls: the invariant holds throughout, and the bytes sent or queued are the
      initial ones followed by the frames of the accepted messages, whole, in order, and no others. */
  lemma {:induction false} RunConservesTx(e: Endpoint, cfg: Config, calls: seq<Call>)
    requires ValidConfig(cfg) && Inv(e, cfg)
    ensures var h := Run(e, cfg, calls);
            Inv(h.end, cfg) && h.end.Outgoing() == e.Outgoing() + Frames(h.accepted)
    decreases |calls|
  {
    hide Frames, Endpoint.Outgoing, ValidChunk;
    hide Step, Accepts, Takes, Returns;
    FramesChain(e.Outgoing(), [], []);
    if calls != [] {
      StepKeepsInv(e, cfg, calls[0]);
      StepSends(e, cfg, calls[0]);
      var f := Step(e, cfg, calls[0]);
      RunConservesTx(f, cfg, calls[1..]);
      FramesChain(e.Outgoing(), Accepts(e, cfg, calls[0]), Run(f, cfg, calls[1..]).accepted);
    }
  }

  lemma PollReceives(e: Endpoint, room: int, later: seq<byte>)
    ensures var (f, d) := GetMessage(e, room);
            Parse(e.rx + later) == Parse(f.rx + later).After(d.Messages())
  {
    hide Decide, Parse;
    if Decide(e.rx, room).Consumed() > 0 {
      AnyBuffer(e.rx, room);
      ParseStep(e.rx, later);
    } else {
      assert GetMessage(e, room).0.rx == e.rx;
      MessagesConsume(e.rx, room);
    }
  }

  lemma StepReceives(e: Endpoint, cfg: Config, call: Call, later: seq<byte>)
    requires ValidConfig(cfg) && Inv(e, cfg)
    ensures Parse(e.rx + (Takes(e, call) + later))
         == Parse(Step(e, cfg, call).rx + later).After(Returns(e, call))
  {
    hide Decide, Parse;
    var f := Step(e, cfg, call);
    assert [] + later == later;
    match call
    case Received(bytes) =>
      assert f.rx == e.rx + Takes(e, call);
      assert e.rx + (Takes(e, call) + later) == f.rx + later;
    case Poll(room) =>
      PollReceives(e, room, later);
    case Send(message, inlineDone, schedule) =>
      SendMessageConserves(e, cfg, message, inlineDone, schedule);
    case Pending(inlineDone) =>
      SendPendingConserves(e, cfg, inlineDone);
    case Sent =>
  }

  /** Over every run of calls, however the bytes are split into data_received calls, whenever the
      polls come and whatever buffer sizes they offer: the messages returned so far, followed by
      those still in the queue, are the messages of the whole received stream. */
  lemma {:induction false} RunReceivesStream(e: Endpoint, cfg: Config, calls: seq<Call>)
    requires ValidConfig(cfg) && Inv(e, cfg)
    ensures var h := Run(e, cfg, calls);
            Parse(e.rx + h.received) == Parse(h.end.rx).After(h.delivered)
    decreases |calls|
  {
    if calls == [] {
      assert e.rx + [] == e.rx;
    } else {
      var f := Step(e, cfg, calls[0]);
      StepKeepsInv(e, cfg, calls[0]);
      var h := Run(f, cfg, calls[1..]);
      calc {
        Parse(e.rx + (Takes(e, calls[0]) + h.received));
        { StepReceives(e, cfg, calls[0], h.received); }
        Parse(f.rx + h.received).After(Returns(e, calls[0]));
        { RunReceivesStream(f, cfg, calls[1..]); }
        Parse(h.end.rx).After(h.delivered).After(Returns(e, calls[0]));
        { Parse(h.end.rx).AfterAfter(Returns(e, calls[0]), h.delivered); }
        Parse(h.end.rx).After(Returns(e, calls[0]) + h.delivered);
      }
    }
  }
}

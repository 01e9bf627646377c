/** The message layer of src/whad.c over a codec given as a pair of functions. */
module Whad {
  import opened Types
  import opened Framing
  import opened TransportModel
  import Model = TransportModel
  import T = Transport
  import L = Link

  /** pb_encode and pb_decode. `encode` is None when encoding fails for a reason other than the
      size of the output buffer. */
  datatype Codec<!M> = Codec(encode: M -> Option<seq<byte>>, decode: seq<byte> -> Option<M>)

  /** Decoding undoes encoding on message `m`. */
  ghost predicate RoundTrips<M>(codec: Codec<M>, m: M) {
    codec.encode(m).Some? ==> codec.decode(codec.encode(m).value) == Some(m)
  }

  /** The bytes whad_send_message hands to the transport: none for an encoding that fails, does not
      fit the 1019-byte buffer, or is empty. */
  function Encoding<M>(codec: Codec<M>, m: M): Option<seq<byte>> {
    match codec.encode(m)
    case None => None
    case Some(bytes) => if 0 < |bytes| <= MAX_PAYLOAD then Some(bytes) else None
  }

  /** What whad_get_message answers to a decision of the transport. */
  function Answer<M>(codec: Codec<M>, d: Decision): (Status, Option<M>) {
    match d
    case Reject => (Error, None)
    case TooSmall(_) => (Error, None)
    case Deliver(payload) =>
      if payload == [] then (NoMessage, None)
      else if codec.decode(payload).Some? then (Success, codec.decode(payload))
      else (Error, None)
    case _ => (NoMessage, None)
  }

  /** What an encoding of 1 to 1019 bytes means for a message that is sent on an empty queue: it is
      passed on as it is and accepted. Any other is not passed on. */
  lemma EncodingExactly<M>(codec: Codec<M>, m: M, bytes: seq<byte>, e: Endpoint, cfg: Config, inlineDone: bool,
                           schedule: seq<seq<Irq>>)
    requires ValidConfig(cfg) && Inv(e, cfg) && e.tx == []
    ensures Encoding(codec, m) == Some(bytes) <==> codec.encode(m) == Some(bytes) && 1 <= |bytes| <= 1019
    ensures Encoding(codec, m) == Some(bytes) ==> Model.SendMessage(e, cfg, Some(bytes), inlineDone, schedule).1 == Success
  {
    if Encoding(codec, m) == Some(bytes) {
      EmptyQueueAccepts(e, cfg, bytes, inlineDone, schedule);
    }
  }

  /** The answer to a queue that begins with a frame: the message its payload decodes to, an error if
      it does not decode, and "no message" for an empty one. */
  lemma AnswerToFrame<M>(codec: Codec<M>, payload: seq<byte>, later: seq<byte>)
    requires |payload| <= MAX_PAYLOAD
    ensures Answer(codec, Decide(Frame(payload) + later, MAX_PAYLOAD)) ==
            if payload == [] then (NoMessage, None)
            else (if codec.decode(payload) == None then Error else Success, codec.decode(payload))
  {
    DecideFrame(payload, later, MAX_PAYLOAD);
  }

  /** Every answer: a message iff the queue starts with a frame whose payload decodes to it, an error iff
      with one that does not decode or with a header above 1019 bytes. */
  lemma AnswerExactly<M>(codec: Codec<M>, s: seq<byte>)
    ensures var (r, m) := Answer(codec, Decide(s, MAX_PAYLOAD));
            && (m.Some? <==> r == Success)
            && (r == Success <==> exists p: seq<byte> ::
                  0 < |p| <= 1019 && Frame(p) <= s && m.Some? && codec.decode(p) == m)
            && (r == Error <==>
                  || (exists p: seq<byte> :: 0 < |p| <= 1019 && Frame(p) <= s && codec.decode(p) == None)
                  || (exists n: nat :: 1019 < n < 0x1_0000 && Header(n) <= s))
            && r in {Success, Error, NoMessage}
  {
    hide Header, Frame;
    var d := Decide(s, MAX_PAYLOAD);
    FullSizeBuffer(s, MAX_PAYLOAD);
    RejectExactly(s, MAX_PAYLOAD);
    if d.Deliver? {
      DeliverExactly(s, MAX_PAYLOAD, d.payload);
    }
    forall p: seq<byte> | 0 < |p| <= 1019 && Frame(p) <= s
      ensures d == Deliver(p)
    {
      DeliverExactly(s, MAX_PAYLOAD, p);
    }
    hide Decide;
  }

  /** The static buffers of src/whad.c around one transport. */
  class Whad<!M> {
    const transport: T.Transport
    const rxBuf: array<byte>
    const txBuf: array<byte>
    const codec: Codec<M>

    ghost predicate Valid()
      reads this, transport, transport.rx, transport.tx, transport.rx.data, transport.tx.data
    {
      && transport.Valid()
      && rxBuf.Length == MAX_PAYLOAD && txBuf.Length == MAX_PAYLOAD
      && rxBuf !in transport.Repr() && txBuf !in transport.Repr()
    }

    constructor (transport: T.Transport, codec: Codec<M>)
      requires transport.Valid()
      ensures Valid() && this.transport == transport && this.codec == codec
    {
      this.transport := transport;
      this.codec := codec;
      rxBuf := new byte[MAX_PAYLOAD];
      txBuf := new byte[MAX_PAYLOAD];
    }

    /** `released`: the resources the message owns have been freed. That happens before the transport
        is asked, so also for a message it then refuses. */
    method SendMessage(m: M, inlineDone: bool, schedule: seq<seq<Irq>>)
      returns (r: Status, released: bool)
      requires Valid()
      modifies txBuf, transport`chunks, transport`state, transport`completions,
               transport.tx, transport.tx.data, transport.txBuf
      ensures Valid()
      ensures (transport.State(), r) ==
              match Encoding(codec, m)
              case None => (old(transport.State()), Error)
              case Some(bytes) =>
                Model.SendMessage(old(transport.State()), old(transport.Cfg()), Some(bytes), inlineDone, schedule)
      ensures released <==> Encoding(codec, m).Some?
    {
      released := false;
      var encoded := codec.encode(m);
      if encoded.None? || |encoded.value| > MAX_PAYLOAD {
        return Error, released;
      }
      var bytes := encoded.value;
      forall i | 0 <= i < |bytes| {
        txBuf[i] := bytes[i];
      }
      if |bytes| > 0 {
        released := true;
        assert txBuf[..|bytes|] == bytes;
        r := transport.SendMessage(txBuf, |bytes|, inlineDone, schedule);
      } else {
        return Error, released;
      }
    }

    method GetMessage() returns (r: Status, m: Option<M>)
      requires Valid()
      modifies rxBuf, transport.rx
      ensures Valid()
      ensures var (e, d) := Model.GetMessage(old(transport.State()), MAX_PAYLOAD);
              transport.State() == e && (r, m) == Answer(codec, d)
    {
      FullSizeBuffer(transport.State().rx, MAX_PAYLOAD);
      var result, size := transport.GetMessage(rxBuf, MAX_PAYLOAD);
      if result == Success {
        if size > 0 {
          var decoded := codec.decode(rxBuf[..size]);
          if decoded.Some? {
            return Success, decoded;
          } else {
            return Error, None;
          }
        } else {
          return NoMessage, None;
        }
      } else {
        return Error, None;
      }
    }
  }

  // ---------------------------------------------------------------- end to end

  /** A message-level step: whad_send_message, or any other step of the link. */
  datatype Event<M> = SendMsg(m: M, inlineDone: bool) | Other(event: L.Event)

  /** The link, and the messages accepted by whad_send_message. */
  datatype System<M> = System(link: L.System, sent: seq<M>)

  function Next<M>(s: System<M>, cfg: Config, codec: Codec<M>, event: Event<M>): System<M>
    requires cfg.maxTx >= 1 && |s.link.dst.rx| <= RING_CAPACITY
  {
    match event
    case Other(e) => if e.Begin? then s else s.(link := L.Next(s.link, cfg, e))
    case SendMsg(m, inlineDone) =>
      match Encoding(codec, m)
      case None => s
      case Some(bytes) =>
        var t := L.Next(s.link, cfg, L.Begin(bytes, inlineDone));
        System(t, if |t.accepted| > |s.link.accepted| then s.sent + [m] else s.sent)
  }

  /** The accepted payloads are the encodings of the messages sent. */
  ghost predicate Encodes<M>(codec: Codec<M>, ms: seq<M>, payloads: seq<seq<byte>>) {
    && |ms| == |payloads|
    && forall i | 0 <= i < |ms| :: Encoding(codec, ms[i]) == Some(payloads[i])
  }

  ghost predicate Good<M>(s: System<M>, cfg: Config, codec: Codec<M>) {
    L.Good(s.link, cfg) && Encodes(codec, s.sent, s.link.accepted)
  }

  lemma StartGood<M>(cfg: Config, codec: Codec<M>)
    requires ValidConfig(cfg)
    ensures Good(System(L.Start, []), cfg, codec)
  {
    L.StartGood(cfg);
  }

  lemma NextKeeps<M>(s: System<M>, cfg: Config, codec: Codec<M>, event: Event<M>)
    requires Good(s, cfg, codec)
    ensures Good(Next(s, cfg, codec, event), cfg, codec)
  {
    hide L.Good;
    match event
    case Other(e) =>
      if !e.Begin? {
        L.NextKeeps(s.link, cfg, e);
        L.InternalStep(s.link, cfg, e);
      }
    case SendMsg(m, inlineDone) =>
      if Encoding(codec, m).Some? {
        L.NextKeeps(s.link, cfg, L.Begin(Encoding(codec, m).value, inlineDone));
      }
  }

  /** whad_send_message accepts every encoding of 1 to 1019 bytes when nothing is queued, and the link
      then carries its frame. */
  lemma EncodedIsSent<M>(s: System<M>, cfg: Config, codec: Codec<M>, m: M, inlineDone: bool)
    requires Good(s, cfg, codec) && s.link.pending == [] && s.link.src.tx == []
    ensures var t := Next(s, cfg, codec, SendMsg(m, inlineDone));
            if codec.encode(m).Some? && 1 <= |codec.encode(m).value| <= 1019
            then t.sent == s.sent + [m] && t.link.pending == Frame(codec.encode(m).value)
            else t == s
  {
  }

  ghost function Run<M>(s: System<M>, cfg: Config, codec: Codec<M>, events: seq<Event<M>>): System<M>
    requires Good(s, cfg, codec)
    decreases |events|
  {
    if events == [] then s
    else
      NextKeeps(s, cfg, codec, events[0]);
      Run(Next(s, cfg, codec, events[0]), cfg, codec, events[1..])
  }

  lemma {:induction false} RunKeeps<M>(s: System<M>, cfg: Config, codec: Codec<M>, events: seq<Event<M>>)
    requires Good(s, cfg, codec)
    ensures Good(Run(s, cfg, codec, events), cfg, codec)
    decreases |events|
  {
    if events != [] {
      NextKeeps(s, cfg, codec, events[0]);
      RunKeeps(Next(s, cfg, codec, events[0]), cfg, codec, events[1..]);
    }
  }

  /** The next answer of whad_get_message. */
  function NextAnswer<M>(s: System<M>, codec: Codec<M>): (Status, Option<M>) {
    Answer(codec, Decide(s.link.dst.rx, MAX_PAYLOAD))
  }

  /** What the messages sent have to do with what arrives: the payloads delivered decode to the first
      of them, in order; the next answer is either the next message or "no message", and it is "no
      message" exactly when the receiver is waiting, so an empty frame never hides behind it. */
  ghost predicate InOrder<M>(t: System<M>, codec: Codec<M>) {
    var n := |t.link.delivered|;
    var answer := NextAnswer(t, codec);
    && n <= |t.sent|
    && (forall i | 0 <= i < n :: codec.decode(t.link.delivered[i]) == Some(t.sent[i]))
    && (answer == (NoMessage, None) || (n < |t.sent| && answer == (Success, Some(t.sent[n]))))
    && (answer.0 == NoMessage <==> Decide(t.link.dst.rx, MAX_PAYLOAD).Wait?)
  }

  lemma GoodInOrder<M>(t: System<M>, cfg: Config, codec: Codec<M>)
    requires Good(t, cfg, codec)
    requires forall m | m in t.sent :: RoundTrips(codec, m)
    ensures InOrder(t, codec)
  {
    forall i | 0 <= i < |t.sent|
      ensures codec.decode(t.link.accepted[i]) == Some(t.sent[i]) && t.link.accepted[i] != []
    {
      assert t.sent[i] in t.sent;
      assert Encoding(codec, t.sent[i]) == Some(t.link.accepted[i]);
      assert RoundTrips(codec, t.sent[i]);
    }
    var later := t.link.link + t.link.src.tx + t.link.pending;
    assert t.link.dst.rx + later == L.InTransit(t.link);
    L.CleanDecision(t.link.dst.rx, later, L.Undelivered(t.link));
  }

  /** Over every run from two freshly initialised ends, if decoding undoes encoding on the messages
      that were sent. */
  lemma MessagesEndToEnd<M>(cfg: Config, codec: Codec<M>, events: seq<Event<M>>)
    requires ValidConfig(cfg)
    ensures Good(System(L.Start, []), cfg, codec)
    ensures var t := Run(System(L.Start, []), cfg, codec, events);
            (forall m | m in t.sent :: RoundTrips(codec, m)) ==> InOrder(t, codec)
  {
    StartGood(cfg, codec);
    RunKeeps(System(L.Start, []), cfg, codec, events);
    var t := Run(System(L.Start, []), cfg, codec, events);
    if forall m | m in t.sent :: RoundTrips(codec, m) {
      GoodInOrder(t, cfg, codec);
    }
  }
}

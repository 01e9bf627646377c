/** The transport object of src/transport.c. Every method is proved equal to its function in
    TransportModel.dfy; the send callback and the interrupts are environment choices given as arguments. */
module Transport {
  import opened Types
  import opened Framing
  import opened TransportModel
  import Model = TransportModel
  import opened RingBuf

  /** gw_transport and the static chunk buffer: two rings, the state machine and the configuration. The
      ghost fields record the buffers handed to the callback and the completions. */
  class Transport {
    var rx: RingBuf
    var tx: RingBuf
    var txBuf: array<byte>
    var state: TxState
    var maxTx: int
    var hasCallback: bool

    ghost var chunks: seq<seq<byte>>
    ghost var completions: nat

    /** The objects this transport owns. */
    ghost function Repr(): set<object>
      reads this, rx, tx
    {
      {this, rx, rx.data, tx, tx.data, txBuf}
    }

    ghost predicate Valid()
      reads this, rx, tx, rx.data, tx.data
    {
      && rx != tx
      && rx.data != tx.data && rx.data != txBuf && tx.data != txBuf
      && rx.Valid() && tx.Valid()
      && txBuf.Length == RING_SLOTS
      && maxTx >= 1
      && Inv(State(), Cfg())
    }

    ghost function Cfg(): Config
      reads this
    {
      Config(maxTx, hasCallback)
    }

    ghost function State(): Endpoint
      requires rx.Valid() && tx.Valid()
      reads this, rx, tx, rx.data, tx.data
    {
      Endpoint(rx.Contents(), tx.Contents(), state, chunks, completions)
    }

    /** What no call changes. */
    twostate predicate SameSetup()
      reads this
    {
      && rx == old(rx) && tx == old(tx) && txBuf == old(txBuf)
      && maxTx == old(maxTx) && hasCallback == old(hasCallback)
    }

    constructor (maxTx: int, hasCallback: bool)
      requires maxTx >= 1
      ensures Valid() && fresh(Repr())
      ensures State() == Initial && Cfg() == Config(maxTx, hasCallback)
    {
      rx := new RingBuf();
      tx := new RingBuf();
      txBuf := new byte[RING_SLOTS];
      this.maxTx := maxTx;
      this.hasCallback := hasCallback;
      state := Idle;
      chunks, completions := [], 0;
    }

    /** whad_transport_init on an existing transport: both queues are emptied. */
    method Init(maxTx: int, hasCallback: bool)
      requires Valid()
      requires maxTx >= 1
      modifies this, rx, tx
      ensures Valid()
      ensures rx == old(rx) && tx == old(tx) && txBuf == old(txBuf)
      ensures State() == Initial && Cfg() == Config(maxTx, hasCallback)
    {
      rx.Init();
      tx.Init();
      this.maxTx := maxTx;
      this.hasCallback := hasCallback;
      state := Idle;
      chunks, completions := [], 0;
    }

    method DataReceived(data: array<byte>, size: int) returns (r: Status)
      requires Valid()
      requires size <= data.Length && data !in Repr()
      modifies rx, rx.data
      ensures Valid() && SameSetup()
      ensures var bytes := if size <= 0 then [] else data[..size];
              (State(), r) == Model.DataReceived(old(State()), bytes)
    {
      hide View, Used;
      ghost var queued := rx.Contents();
      var i := 0;
      while i < size
        invariant 0 <= i <= data.Length && (i <= size || i == 0)
        invariant rx.Valid()
        invariant rx.Contents() == queued + data[..i]
        invariant tx.Contents() == old(tx.Contents())
      {
        assert queued + data[..i] + [data[i]] == queued + data[..i + 1];
        var pushed := rx.Push(data[i]);
        if pushed == RingFull {
          assert data[..size][..i] == data[..i];
          return RingFull;
        }
        i := i + 1;
      }
      return Success;
    }

    method DataSent()
      requires Valid()
      modifies this`state, this`completions
      ensures Valid() && SameSetup()
      ensures State() == Model.DataSent(old(State()))
    {
      if state == Sending {
        state := Idle;
        completions := completions + 1;
      }
    }

    /** The configured callback receives `size` bytes of the static buffer; it may report
        completion before it returns. */
    method Callback(size: int, inlineDone: bool)
      requires rx.Valid() && tx.Valid()
      requires 0 <= size <= txBuf.Length
      modifies this`chunks, this`state, this`completions
      ensures SameSetup()
      ensures var called := old(State()).(chunks := old(chunks) + [txBuf[..size]]);
              State() == if inlineDone then Model.DataSent(called) else called
    {
      chunks := chunks + [txBuf[..size]];
      if inlineDone && state == Sending {
        state := Idle;
        completions := completions + 1;
      }
    }

    method SendPending(inlineDone: bool) returns (r: Status)
      requires Valid()
      modifies this`chunks, this`state, this`completions, tx, txBuf
      ensures Valid() && SameSetup()
      ensures (State(), r) == Model.SendPending(old(State()), old(Cfg()), inlineDone)
    {
      hide RingBuf.Contents, Inv;
      SendPendingConserves(State(), Cfg(), inlineDone);
      if state != Idle {
        return Error;
      }
      if hasCallback {
        var size := tx.GetSize();
        if size > 0 {
          if size > maxTx {
            size := maxTx;
          }
          var copied := tx.Copy(txBuf, size);
          if copied == Success {
            state := Sending;
            Callback(size, inlineDone);
            var skipped := tx.Skip(size);
          } else {
            return Error;
          }
        } else {
          return RingEmpty;
        }
      }
      return Success;
    }

    method WaitTxSpace(size: int, inlineDone: bool) returns (r: Status)
      requires Valid()
      modifies this`chunks, this`state, this`completions, tx, txBuf
      ensures Valid() && SameSetup()
      ensures (State(), r) == Model.WaitTxSpace(old(State()), old(Cfg()), size, inlineDone)
    {
      var free := tx.GetFreeSize();
      if free >= size {
        return Success;
      }
      if state == Idle {
        var sent := SendPending(inlineDone);
      }
      free := tx.GetFreeSize();
      if free >= size {
        return Success;
      }
      return RingFull;
    }

    /** Interrupt handlers that complete a transmission or drain the queue. */
    method Interrupt(irqs: seq<Irq>)
      requires Valid()
      modifies this`chunks, this`state, this`completions, tx, txBuf
      ensures Valid() && SameSetup()
      ensures State() == Model.Interrupt(old(State()), old(Cfg()), irqs)
      decreases |irqs|
    {
      if irqs != [] {
        match irqs[0] {
          case DoneIrq => DataSent();
          case DrainIrq(inlineDone) => var r := SendPending(inlineDone);
        }
        Interrupt(irqs[1..]);
      }
    }

    ghost function Prefix(bytes: array?<byte>, size: int): (s: seq<byte>)
      requires if bytes == null then size <= 0 else 0 <= size <= bytes.Length
      reads bytes
    {
      if bytes == null then [] else bytes[..size]
    }

    /** One iteration of a push loop: push and let interrupts run, or roll back on failure. */
    method PushOne(b: byte, pushed: nat, irqs: seq<Irq>) returns (r: Status)
      requires Valid()
      modifies this`chunks, this`state, this`completions, tx, tx.data, txBuf
      ensures Valid() && SameSetup()
      ensures r == if |old(State()).tx| < RING_CAPACITY then Success else RingFull
      ensures State() == if r == Success
                         then Model.Interrupt(old(State()).(tx := old(State()).tx + [b]), old(Cfg()), irqs)
                         else Rollback(old(State()), pushed)
    {
      r := tx.Push(b);
      if r != Success {
        var skipped := tx.Skip(pushed);
        return RingFull;
      }
      Interrupt(irqs);
    }

    /** One of the two push loops of send_message, after `pushed0` earlier pushes. */
    method PushBytes(bytes: array?<byte>, size: int, pushed0: nat, schedule: seq<seq<Irq>>)
      returns (r: Status, pushed: nat)
      requires Valid()
      requires if bytes == null then size == 0 else 0 <= size <= bytes.Length && bytes !in Repr()
      modifies this`chunks, this`state, this`completions, tx, tx.data, txBuf
      ensures Valid() && SameSetup()
      ensures (State(), r) == Model.PushBytes(old(State()), old(Cfg()), Prefix(bytes, size), pushed0, schedule)
      ensures if r == Success then pushed == pushed0 + size else r == RingFull
    {
      hide Inv, Model.Interrupt, RingBuf.Contents;
      pushed := pushed0;
      var i := 0;
      while i < size
        invariant 0 <= i <= size && pushed == pushed0 + i
        invariant Valid() && SameSetup()
        invariant Model.PushBytes(State(), Cfg(), Prefix(bytes, size)[i..], pushed, schedule)
               == Model.PushBytes(old(State()), old(Cfg()), Prefix(bytes, size), pushed0, schedule)
      {
        ghost var left := Prefix(bytes, size)[i..];
        assert left[0] == bytes[i] && left[1..] == Prefix(bytes, size)[i + 1..];
        r := PushOne(bytes[i], pushed, IrqsAt(schedule, pushed));
        if r != Success {
          return RingFull, pushed;
        }
        pushed := pushed + 1;
        i := i + 1;
      }
      return Success, pushed;
    }

    /** The message that the arguments of send_message stand for, or None when they are rejected. */
    ghost function Argument(message: array?<byte>, size: int): Option<seq<byte>>
      requires message != null ==> size <= message.Length
      reads message
    {
      if (message == null && size > 0) || size < 0 || size > MAX_PAYLOAD then None
      else Some(Prefix(message, size))
    }

    /** Builds the header and pushes header and payload, after space has been reserved. */
    method PushFrame(message: array?<byte>, size: int, schedule: seq<seq<Irq>>) returns (r: Status)
      requires Valid()
      requires if message == null then size == 0 else 0 <= size <= message.Length && message !in Repr()
      modifies this`chunks, this`state, this`completions, tx, tx.data, txBuf
      ensures Valid() && SameSetup()
      ensures (State(), r) == Model.PushBytes(old(State()), old(Cfg()), Frame(old(Prefix(message, size))), 0, schedule)
    {
      hide Model.PushBytes, Inv, RingBuf.Contents;
      var header := new byte[HEADER_SIZE];
      header[0] := 0xAC;
      header[1] := 0xBE;
      header[2] := (size % 0x100) as byte;
      header[3] := (size / 0x100 % 0x100) as byte;
      assert header[..HEADER_SIZE] == Header(size);
      PushBytesSplit(State(), Cfg(), Header(size), Prefix(message, size), 0, schedule);

      var pushed: nat;
      r, pushed := PushBytes(header, HEADER_SIZE, 0, schedule);
      if r != Success {
        return RingFull;
      }
      r, pushed := PushBytes(message, size, pushed, schedule);
    }

    lemma SendOutcome(e: Endpoint, cfg: Config, message: Option<seq<byte>>, inlineDone: bool, schedule: seq<seq<Irq>>)
      requires ValidConfig(cfg) && Inv(e, cfg)
      ensures var (f, r) := Model.SendMessage(e, cfg, message, inlineDone, schedule);
              && (r == Error <==> message.None?)
              && f.Outgoing() == e.Outgoing() + if r == Success then Frame(message.value) else []
    {
      SendMessageConserves(e, cfg, message, inlineDone, schedule);
      if message.Some? {
        AcceptedExactly(e, cfg, message.value, inlineDone, schedule);
      }
    }

    method SendMessage(message: array?<byte>, size: int, inlineDone: bool, schedule: seq<seq<Irq>>)
      returns (r: Status)
      requires Valid()
      requires message != null ==> size <= message.Length && message !in Repr()
      modifies this`chunks, this`state, this`completions, tx, tx.data, txBuf
      ensures Valid() && SameSetup()
      ensures (State(), r) == Model.SendMessage(old(State()), old(Cfg()), old(Argument(message, size)),
                                                inlineDone, schedule)
      ensures r == Error <==> (message == null && size > 0) || size < 0 || size > 1019
      ensures State().Outgoing() == old(State().Outgoing()) +
                (if r == Success then Frame(if size == 0 then [] else old(message[..size])) else [])
    {
      SendOutcome(State(), Cfg(), Argument(message, size), inlineDone, schedule);
      hide Model.PushBytes, Model.WaitTxSpace, Inv;
      if message == null && size > 0 {
        return Error;
      }
      if size < 0 || size > MAX_PAYLOAD {
        return Error;
      }
      var frameSize := size + HEADER_SIZE;
      var space := WaitTxSpace(frameSize, inlineDone);
      if space != Success {
        return RingFull;
      }
      r := PushFrame(message, size, schedule);
    }

    /** Drops queued bytes from the receive ring. */
    method Drop(n: int)
      requires Valid()
      requires 0 <= n <= |State().rx|
      modifies rx
      ensures Valid() && SameSetup()
      ensures State() == old(State()).(rx := old(State()).rx[n..])
    {
      var skipped := rx.Skip(n);
    }

    method ReadHeader() returns (r: Status, header: array<byte>)
      requires Valid()
      requires |State().rx| >= HEADER_SIZE
      ensures fresh(header) && header.Length == HEADER_SIZE
      ensures r == Success && header[..] == State().rx[..HEADER_SIZE]
    {
      header := new byte[HEADER_SIZE];
      r := rx.Copy(header, HEADER_SIZE);
      assert header[..] == header[..HEADER_SIZE];
    }

    /** Takes one complete frame off the receive ring: skip the header, copy and skip the payload. */
    method Extract(buffer: array<byte>, size: int)
      requires Valid()
      requires 0 <= size && HEADER_SIZE + size <= |State().rx|
      requires size <= buffer.Length && buffer !in Repr()
      modifies rx, buffer
      ensures Valid() && SameSetup()
      ensures State() == old(State()).(rx := old(State()).rx[HEADER_SIZE + size..])
      ensures buffer[..] == old(State()).rx[HEADER_SIZE..HEADER_SIZE + size] + old(buffer[size..])
    {
      hide RingBuf.Contents, Inv;
      TakenKeepsInv(State(), Cfg(), HEADER_SIZE + size);
      ghost var s := rx.Contents();
      var skipped := rx.Skip(HEADER_SIZE);
      var copied := rx.Copy(buffer, size);
      skipped := rx.Skip(size);
      assert s[HEADER_SIZE..][..size] == s[HEADER_SIZE..HEADER_SIZE + size];
      assert s[HEADER_SIZE..][size..] == s[HEADER_SIZE + size..];
      assert buffer[..] == buffer[..size] + buffer[size..];
    }

    /** `room` is *p_size on entry and `size` is *p_size on return. */
    method GetMessage(buffer: array<byte>, room: int) returns (r: Status, size: int)
      requires Valid()
      requires room <= buffer.Length && buffer !in Repr()
      modifies rx, buffer
      ensures Valid() && SameSetup()
      ensures var (e, d) := Model.GetMessage(old(State()), room);
              && State() == e
              && r == (if d.Reject? || d.TooSmall? then Error else Success)
              && size == (match d
                          case TooSmall(needed) => needed
                          case Deliver(payload) => |payload|
                          case _ => 0)
              && buffer[..] == (if d.Deliver? then d.payload + old(buffer[size..]) else old(buffer[..]))
    {
      hide RingBuf.Contents, Inv;
      var queued := rx.GetSize();
      ghost var s := State().rx;
      if queued >= HEADER_SIZE {
        var copied, header := ReadHeader();
        if copied == Error {
          return Error, 0;
        }
        assert forall i | 0 <= i < HEADER_SIZE :: header[i] == header[..][i] == s[i];
        if header[0] == 0xAC && header[1] == 0xBE {
          size := header[2] as int + 0x100 * header[3] as int;
          if size > MAX_PAYLOAD {
            Drop(1);
            return Error, 0;
          }
          if room >= size {
            queued := rx.GetSize();
            if queued >= size + HEADER_SIZE {
              Extract(buffer, size);
              return Success, size;
            }
          } else {
            return Error, size;
          }
        } else if header[1] == 0xAC {
          Drop(1);
        } else {
          Drop(2);
        }
      }
      return Success, 0;
    }

    method GetTxBufSize() returns (n: int)
      requires Valid()
      ensures n == |State().tx|
    {
      n := tx.GetSize();
    }

    method GetRxBufSize() returns (n: int)
      requires Valid()
      ensures n == |State().rx|
    {
      n := rx.GetSize();
    }
  }
}

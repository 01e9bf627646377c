/** The timestamps of src/domains/phy.c: seconds and microseconds packed into one 64-bit field. */
module Phy {
  import opened Types

  const MICROS: int := 1000000

  const PHY_TAG: int := 7      // Message_phy_tag
  const MAX_PACKET: int := 255

  /** `ts_sec*1000000 + ts_usec`: both operands are uint32_t, so product and sum wrap at 2^32
      before they are stored in the 64-bit field. */
  function Pack(sec: u32, usec: u32): u64 {
    (sec * MICROS % TWO32 + usec) % TWO32
  }

  /** `timestamp/1000000` and `timestamp%1000000`, cast to uint32_t. */
  function Split(timestamp: u64): (u32, u32) {
    (timestamp / MICROS % TWO32, timestamp % MICROS)
  }

  /** For any value of the field, also one above 32 bits as a peer may send it: the parts are those of
      the time up to 2^32 seconds, and from there on the cast drops whole laps of the seconds. */
  lemma SplitExactly(timestamp: u64)
    ensures var (sec, usec) := Split(timestamp);
            && usec < MICROS
            && (sec * MICROS + usec == timestamp <==> timestamp < TWO32 * MICROS)
            && (sec * MICROS + usec) % (TWO32 * MICROS) == timestamp % (TWO32 * MICROS)
  {
    var seconds := timestamp / MICROS;
    assert timestamp == seconds * MICROS + timestamp % MICROS;
    assert seconds == seconds / TWO32 * TWO32 + seconds % TWO32;
    Laps(seconds % TWO32 * MICROS + timestamp % MICROS, seconds / TWO32);
  }

  lemma {:induction false} Laps(x: nat, laps: nat)
    requires x < TWO32 * MICROS
    ensures (x + laps * (TWO32 * MICROS)) % (TWO32 * MICROS) == x
  {
    if laps > 0 {
      Laps(x, laps - 1);
    }
  }

  /** Wrapping an intermediate result does not change the final one. */
  lemma WrapTwice(x: nat, y: nat)
    ensures (x % TWO32 + y) % TWO32 == (x + y) % TWO32
  {
  }

  /** Packing and splitting reduces the true time modulo 2^32 microseconds, about 71.6 minutes. */
  lemma PackSplit(sec: u32, usec: u32)
    ensures var t := (sec * MICROS + usec) % TWO32;
            Split(Pack(sec, usec)) == (t / MICROS, t % MICROS)
  {
    WrapTwice(sec * MICROS, usec);
    assert Pack(sec, usec) / MICROS < TWO32;
  }

  /** A timestamp survives exactly when its microseconds are below one second and the whole is
      below 2^32 microseconds. */
  lemma PackSplitExact(sec: u32, usec: u32)
    ensures Split(Pack(sec, usec)) == (sec, usec) <==> usec < MICROS && sec * MICROS + usec < TWO32
  {
    PackSplit(sec, usec);
    var whole := sec * MICROS + usec;
    var t := whole % TWO32;
    assert t == t / MICROS * MICROS + t % MICROS;
    if usec < MICROS && whole < TWO32 {
      assert t == whole;
      assert whole / MICROS == sec && whole % MICROS == usec;
    }
  }

  /** Every second from 4295 on is lost, for instance. */
  lemma LongUptimeWraps(sec: u32)
    requires sec >= 4295
    ensures forall usec: u32 :: Split(Pack(sec, usec)) != (sec, usec)
  {
  }

  /** The PHY message variants that carry a timestamp. */
  datatype Body =
    | Other
    | SchedSend(packet: seq<byte>, sendAt: u64)
    | Jammed(jammedAt: u64)
    | PacketReceived(frequency: u32, hasTimestamp: bool, receivedAt: u64, payload: seq<byte>)

  class Message {
    var whichMsg: int
    var body: Body

    constructor ()
    {
      whichMsg := 0;
      body := Other;
    }
  }

  /** A NULL message or packet and a packet above 255 bytes are refused; a refused call changes nothing. */
  method SchedPacket(message: Message?, packet: array?<byte>, length: int, sec: u32, usec: u32)
    returns (r: Status)
    requires packet != null ==> 0 <= length <= packet.Length
    modifies message
    ensures r == if message == null || packet == null || length > MAX_PACKET then Error else Success
    ensures r == Success ==> message.whichMsg == PHY_TAG && message.body == SchedSend(packet[..length], Pack(sec, usec))
    ensures r == Error && message != null ==> message.whichMsg == old(message.whichMsg) && message.body == old(message.body)
  {
    var timestamp := (sec * MICROS % TWO32 + usec) % TWO32;
    if message == null || packet == null {
      return Error;
    }
    if length > 255 {
      return Error;
    }
    message.whichMsg := PHY_TAG;
    message.body := SchedSend(packet[..length], timestamp);
    return Success;
  }

  /** The parsers read the variant their caller has found in the message. */
  method SchedPacketParse(message: Message?) returns (r: Status, packet: seq<byte>, sec: u32, usec: u32)
    requires message != null ==> message.body.SchedSend?
    ensures r == if message == null then Error else Success
    ensures r == Success ==> (sec, usec) == Split(message.body.sendAt)
    ensures r == Success && |message.body.packet| <= MAX_PACKET ==> packet == message.body.packet
    ensures r == Success && |message.body.packet| > MAX_PACKET ==> packet == seq(256, _ => 0 as byte)
  {
    packet, sec, usec := [], 0, 0;
    if message == null {
      return Error, packet, sec, usec;
    }
    if |message.body.packet| < 256 {
      packet := message.body.packet;
    } else {
      packet := seq(256, _ => 0 as byte);
    }
    sec := message.body.sendAt / MICROS % TWO32;
    usec := message.body.sendAt % MICROS;
    return Success, packet, sec, usec;
  }

  method ReportJammed(message: Message?, sec: u32, usec: u32) returns (r: Status)
    modifies message
    ensures r == if message == null then Error else Success
    ensures r == Success ==> message.whichMsg == PHY_TAG && message.body == Jammed(Pack(sec, usec))
  {
    if message == null {
      return Error;
    }
    message.whichMsg := PHY_TAG;
    if sec > 0 || usec > 0 {
      message.body := Jammed((sec * MICROS % TWO32 + usec) % TWO32);
    } else {
      message.body := Jammed(0);
    }
    return Success;
  }

  method JammedParse(message: Message?) returns (r: Status, sec: u32, usec: u32)
    requires message != null ==> message.body.Jammed?
    ensures r == if message == null then Error else Success
    ensures r == Success ==> (sec, usec) == Split(message.body.jammedAt)
  {
    if message == null {
      return Error, 0, 0;
    }
    sec := message.body.jammedAt / MICROS % TWO32;
    usec := message.body.jammedAt % MICROS;
    return Success, sec, usec;
  }

  /** Builds the report with a payload cut to 255 bytes; the time (0, 0) counts as absent. */
  method ReportPacket(message: Message?, frequency: u32, sec: u32, usec: u32, payload: array?<byte>, length: int)
    returns (r: Status)
    requires payload != null ==> 0 <= length <= payload.Length
    modifies message
    ensures r == if message == null || payload == null then Error else Success
    ensures r == Success ==>
              && message.whichMsg == PHY_TAG
              && message.body == PacketReceived(frequency, (sec, usec) != (0, 0), Pack(sec, usec),
                                                payload[..Min(length, MAX_PACKET)])
    ensures r == Error && message != null ==> message.body == old(message.body)
  {
    if message == null || payload == null {
      return Error;
    }
    var hasTimestamp, timestamp := false, 0;
    if sec > 0 || usec > 0 {
      hasTimestamp := true;
      timestamp := (sec * MICROS % TWO32 + usec) % TWO32;
    }
    var size := length;
    if size > 255 {
      size := 255;
    }
    message.whichMsg := PHY_TAG;
    message.body := PacketReceived(frequency, hasTimestamp, timestamp, payload[..size]);
    return Success;
  }

  method PacketParse(message: Message?) returns (r: Status, sec: u32, usec: u32)
    requires message != null ==> message.body.PacketReceived?
    ensures r == if message == null then Error else Success
    ensures r == Success ==>
              (sec, usec) == if message.body.hasTimestamp then Split(message.body.receivedAt) else (0, 0)
  {
    if message == null {
      return Error, 0, 0;
    }
    sec, usec := 0, 0;
    if message.body.hasTimestamp {
      sec := message.body.receivedAt / MICROS % TWO32;
      usec := message.body.receivedAt % MICROS;
    }
    return Success, sec, usec;
  }

  /** Building any of the three messages and parsing it back returns the pair exactly under the
      condition of PackSplitExact, for a packet of any length from 0 to 255. */
  method BuildAndParse(packet: array<byte>, sec: u32, usec: u32)
    returns (sched: (u32, u32), jammed: (u32, u32), received: (u32, u32))
    requires packet.Length <= MAX_PACKET
    ensures (sched == (sec, usec)) == (jammed == (sec, usec)) == (received == (sec, usec))
    ensures sched == (sec, usec) <==> usec < MICROS && sec * MICROS + usec < TWO32
  {
    PackSplitExact(sec, usec);
    var m := new Message();
    var r := SchedPacket(m, packet, packet.Length, sec, usec);
    var r0, p0, s0, u0 := SchedPacketParse(m);
    r := ReportJammed(m, sec, usec);
    var r1, s1, u1 := JammedParse(m);
    r := ReportPacket(m, 0, sec, usec, packet, packet.Length);
    var r2, s2, u2 := PacketParse(m);
    return (s0, u0), (s1, u1), (s2, u2);
  }
}

/** The BLE channel map of src/cpp/domains/ble/ble_channelmap.cpp: five bytes for 40 channels. */
module ChannelMap {

  const MAP_BYTES: int := 5
  const CHANNELS: int := 40

  type Bytes = m: seq<bv8> | |m| == MAP_BYTES witness [0, 0, 0, 0, 0]

  /** The bit of channel number `o` within its byte. */
  function Mask(o: int): bv8
    requires 0 <= o < 8
  {
    if o == 0 then 1 else if o == 1 then 2 else if o == 2 then 4 else if o == 3 then 8
    else if o == 4 then 16 else if o == 5 then 32 else if o == 6 then 64 else 128
  }

  predicate Bit(b: bv8, o: int)
    requires 0 <= o < 8
  {
    b & Mask(o) != 0
  }

  /** The set of enabled channels that five bytes stand for. */
  function Channels(m: Bytes): (s: set<int>) {
    set c | 0 <= c < CHANNELS && Bit(m[c / 8], c % 8)
  }

  lemma ShiftIsMask(o: int)
    requires 0 <= o < 8
    ensures (1 as bv8) << o == Mask(o)
  {
    assert (1 as bv8) << 0 == 1 && (1 as bv8) << 1 == 2 && (1 as bv8) << 2 == 4 && (1 as bv8) << 3 == 8;
    assert (1 as bv8) << 4 == 16 && (1 as bv8) << 5 == 32 && (1 as bv8) << 6 == 64 && (1 as bv8) << 7 == 128;
  }

  function With(b: bv8, o: int): bv8
    requires 0 <= o < 8
  {
    b | Mask(o)
  }

  function Without(b: bv8, o: int): bv8
    requires 0 <= o < 8
  {
    b & !Mask(o)
  }

  lemma AllOnes(o: int)
    requires 0 <= o < 8
    ensures Bit(0xff, o)
  {
  }

  lemma SetBit(b: bv8, o: int, p: int)
    requires 0 <= o < 8 && 0 <= p < 8
    ensures Bit(With(b, o), p) == (p == o || Bit(b, p))
  {
  }

  lemma ClearBit(b: bv8, o: int, p: int)
    requires 0 <= o < 8 && 0 <= p < 8
    ensures Bit(Without(b, o), p) == (p != o && Bit(b, p))
  {
  }

  lemma BitsDetermineByte(a: bv8, b: bv8)
    requires forall o | 0 <= o < 8 :: Bit(a, o) == Bit(b, o)
    ensures a == b
  {
    assert Bit(a, 0) == Bit(b, 0) && Bit(a, 1) == Bit(b, 1) && Bit(a, 2) == Bit(b, 2) && Bit(a, 3) == Bit(b, 3);
    assert Bit(a, 4) == Bit(b, 4) && Bit(a, 5) == Bit(b, 5) && Bit(a, 6) == Bit(b, 6) && Bit(a, 7) == Bit(b, 7);
  }

  /** What the two updates do to the bytes; a channel outside 0..39 changes nothing. */
  function Enabled(m: Bytes, channel: int): Bytes {
    if 0 <= channel < CHANNELS then m[channel / 8 := With(m[channel / 8], channel % 8)] else m
  }

  function Disabled(m: Bytes, channel: int): Bytes {
    if 0 <= channel < CHANNELS then m[channel / 8 := Without(m[channel / 8], channel % 8)] else m
  }

  /** The byte that an update leaves alone, and the position of a channel in the one it changes. */
  lemma UpdatedByte(m: Bytes, channel: int, b: bv8, c: int)
    requires 0 <= channel < CHANNELS && 0 <= c < CHANNELS
    ensures var n: Bytes := m[channel / 8 := b];
            n[c / 8] == (if c / 8 == channel / 8 then b else m[c / 8])
            && (c == channel <==> c / 8 == channel / 8 && c % 8 == channel % 8)
  {
  }

  lemma EnabledChannels(m: Bytes, channel: int)
    ensures Channels(Enabled(m, channel)) == Channels(m) + if 0 <= channel < CHANNELS then {channel} else {}
  {
    if 0 <= channel < CHANNELS {
      hide Bit, With;
      var b := With(m[channel / 8], channel % 8);
      forall c | 0 <= c < CHANNELS
        ensures c in Channels(Enabled(m, channel)) <==> c == channel || c in Channels(m)
      {
        UpdatedByte(m, channel, b, c);
        if c / 8 == channel / 8 {
          SetBit(m[c / 8], channel % 8, c % 8);
        }
      }
    }
  }

  lemma DisabledChannels(m: Bytes, channel: int)
    ensures Channels(Disabled(m, channel)) == Channels(m) - {channel}
  {
    if 0 <= channel < CHANNELS {
      hide Bit, Without;
      var b := Without(m[channel / 8], channel % 8);
      forall c | 0 <= c < CHANNELS
        ensures c in Channels(Disabled(m, channel)) <==> c != channel && c in Channels(m)
      {
        UpdatedByte(m, channel, b, c);
        if c / 8 == channel / 8 {
          ClearBit(m[c / 8], channel % 8, c % 8);
        }
      }
    }
  }

  /** Two maps with the same set of channels are the same five bytes. */
  lemma SameChannelsSameBytes(m: Bytes, n: Bytes)
    requires Channels(m) == Channels(n)
    ensures m == n
  {
    forall i | 0 <= i < MAP_BYTES
      ensures m[i] == n[i]
    {
      forall o | 0 <= o < 8
        ensures Bit(m[i], o) == Bit(n[i], o)
      {
        var c := 8 * i + o;
        assert c in Channels(m) <==> c in Channels(n);
      }
      BitsDetermineByte(m[i], n[i]);
    }
  }

  lemma NoChannelsIsZero(m: Bytes)
    ensures Channels(m) == {} <==> m == [0, 0, 0, 0, 0]
  {
    var zero: Bytes := [0, 0, 0, 0, 0];
    assert Channels(zero) == {};
    if Channels(m) == {} {
      SameChannelsSameBytes(m, zero);
    }
  }

  function Weight(on: bool, w: bv8): bv8 {
    if on then w else 0
  }

  /** Channel 8k + o is bit o of byte k, the least significant bit first: the byte is the sum of two
      to the o over its channels. */
  lemma BytesFromChannels(m: Bytes, k: int)
    requires 0 <= k < MAP_BYTES
    ensures var s := Channels(m);
            m[k] == Weight(8 * k in s, 1) + Weight(8 * k + 1 in s, 2) + Weight(8 * k + 2 in s, 4)
                  + Weight(8 * k + 3 in s, 8) + Weight(8 * k + 4 in s, 16) + Weight(8 * k + 5 in s, 32)
                  + Weight(8 * k + 6 in s, 64) + Weight(8 * k + 7 in s, 128)
  {
    var b := m[k];
    BitsSum(b);
    hide Weight;
    forall o | 0 <= o < 8
      ensures Bit(b, o) <==> 8 * k + o in Channels(m)
    {
      assert (8 * k + o) / 8 == k && (8 * k + o) % 8 == o;
    }
    hide Bit;
    assert Bit(b, 0) == (8 * k + 0 in Channels(m));
  }

  lemma BitsSum(b: bv8)
    ensures b == Weight(Bit(b, 0), 1) + Weight(Bit(b, 1), 2) + Weight(Bit(b, 2), 4) + Weight(Bit(b, 3), 8)
               + Weight(Bit(b, 4), 16) + Weight(Bit(b, 5), 32) + Weight(Bit(b, 6), 64) + Weight(Bit(b, 7), 128)
  {
  }

  datatype Update = Enable(channel: int) | Disable(channel: int)

  function Apply(m: Bytes, updates: seq<Update>): Bytes
    decreases |updates|
  {
    if updates == [] then m
    else
      var n := match updates[0]
               case Enable(c) => Enabled(m, c)
               case Disable(c) => Disabled(m, c);
      Apply(n, updates[1..])
  }

  /** Whether the last update to `channel` enables it; `initially` when there is none. */
  function LastSays(updates: seq<Update>, channel: int, initially: bool): bool
    decreases |updates|
  {
    if updates == [] then initially
    else
      var last := updates[|updates| - 1];
      if last.channel == channel then last.Enable?
      else LastSays(updates[..|updates| - 1], channel, initially)
  }

  lemma {:induction false} LastSaysFirst(updates: seq<Update>, channel: int, initially: bool)
    requires updates != []
    ensures LastSays(updates, channel, initially)
         == LastSays(updates[1..], channel, if updates[0].channel == channel then updates[0].Enable? else initially)
    decreases |updates|
  {
    if |updates| > 1 {
      assert updates[1..][..|updates| - 2] == updates[..|updates| - 1][1..];
      LastSaysFirst(updates[..|updates| - 1], channel, initially);
    }
  }

  /** After any updates with any integer arguments, a channel is enabled iff it is one of the 40 and
      its last update enabled it. */
  lemma {:induction false} UpdatesRefineSet(m: Bytes, updates: seq<Update>, channel: int)
    ensures channel in Channels(Apply(m, updates)) <==>
              0 <= channel < CHANNELS && LastSays(updates, channel, channel in Channels(m))
    decreases |updates|
  {
    if updates != [] {
      EnabledChannels(m, updates[0].channel);
      DisabledChannels(m, updates[0].channel);
      LastSaysFirst(updates, channel, channel in Channels(m));
      var n := match updates[0]
               case Enable(c) => Enabled(m, c)
               case Disable(c) => Disabled(m, c);
      UpdatesRefineSet(n, updates[1..], channel);
    }
  }

  class ChannelMap {
    const bytes: array<bv8>

    ghost predicate Valid() {
      bytes.Length == MAP_BYTES
    }

    ghost function View(): Bytes
      requires Valid()
      reads bytes
    {
      bytes[..]
    }

    /** All 40 channels are active. */
    constructor ()
      ensures Valid() && fresh(bytes)
      ensures forall c :: c in Channels(View()) <==> 0 <= c < CHANNELS
    {
      bytes := new bv8[MAP_BYTES](_ => 0xff);
      new;
      forall c | 0 <= c < CHANNELS
        ensures c in Channels(bytes[..])
      {
        AllOnes(c % 8);
      }
    }

    constructor FromBytes(channelMap: array<bv8>)
      requires channelMap.Length >= MAP_BYTES
      ensures Valid() && fresh(bytes)
      ensures View() == channelMap[..MAP_BYTES]
    {
      bytes := new bv8[MAP_BYTES](i requires 0 <= i < MAP_BYTES reads channelMap => channelMap[i]);
    }

    method IsNull() returns (b: bool)
      requires Valid()
      ensures b <==> Channels(View()) == {}
    {
      b := true;
      for i := 0 to MAP_BYTES
        invariant b <==> forall j | 0 <= j < i :: bytes[j] == 0
      {
        if bytes[i] != 0 {
          b := false;
        }
      }
      NoChannelsIsZero(View());
      assert b <==> View() == [0, 0, 0, 0, 0];
    }

    method EnableChannel(channel: int)
      requires Valid()
      modifies bytes
      ensures View() == Enabled(old(View()), channel)
      ensures Channels(View()) == old(Channels(View())) + if 0 <= channel < CHANNELS then {channel} else {}
    {
      EnabledChannels(View(), channel);
      hide Channels, Mask;
      if 0 <= channel <= 39 {
        var n := channel / 8;
        var o := channel % 8;
        ShiftIsMask(o);
        bytes[n] := bytes[n] | ((1 as bv8) << o);
      }
    }

    method DisableChannel(channel: int)
      requires Valid()
      modifies bytes
      ensures View() == Disabled(old(View()), channel)
      ensures Channels(View()) == old(Channels(View())) - {channel}
    {
      DisabledChannels(View(), channel);
      hide Channels, Mask;
      if 0 <= channel <= 39 {
        var n := channel / 8;
        var o := channel % 8;
        ShiftIsMask(o);
        bytes[n] := bytes[n] & !((1 as bv8) << o);
      }
    }

    method IsChannelEnabled(channel: int) returns (b: bool)
      requires Valid()
      ensures b <==> channel in Channels(View())
    {
      if 0 <= channel <= 39 {
        var n := channel / 8;
        var o := channel % 8;
        ShiftIsMask(o);
        return bytes[n] & ((1 as bv8) << o) != 0;
      }
      return false;
    }
  }
}

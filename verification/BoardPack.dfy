/** whad_board_pack and whad_board_unpack, the bodies behind all 49 pairs of Board functions, over
    raw bytes: a value is `size` bytes, its validator a predicate on them, its place the union that
    all Board messages share. */
module BoardPack {
  import opened Types

  const BOARD_TAG: int := 8   // Message_board_tag

  type Validator = seq<byte> -> bool

  /** The parts of a message that the two functions touch; `storage` is the union. */
  datatype Value = Value(whichMsg: int, requestId: u32, boardTag: int, storage: seq<byte>)

  /** What packing leaves in the message: everything is overwritten, unused storage is zero. */
  function Packed(requestId: u32, tag: int, value: seq<byte>, storageSize: nat): Value
    requires |value| <= storageSize
  {
    Value(BOARD_TAG, requestId, tag, value + seq(storageSize - |value|, _ => 0 as byte))
  }

  /** The request id and the bytes that unpacking returns, or None for an error. */
  function Unpacked(v: Value, tag: int, size: nat, validator: Validator): Option<(u32, seq<byte>)>
    requires size <= |v.storage|
  {
    if v.whichMsg == BOARD_TAG && v.boardTag == tag && validator(v.storage[..size])
    then Some((v.requestId, v.storage[..size]))
    else None
  }

  /** Unpacking with the tag that packed returns the same request id and value; it is refused
      exactly when the tags differ or the reader's validator rejects the bytes it would read. */
  lemma UnpackPacked(requestId: u32, tag: int, value: seq<byte>, storageSize: nat,
                     tag': int, size': nat, validator': Validator)
    requires |value| <= storageSize && size' <= storageSize
    ensures var p := Packed(requestId, tag, value, storageSize);
            && (Unpacked(p, tag', size', validator').Some? <==> tag' == tag && validator'(p.storage[..size']))
            && (size' == |value| && tag' == tag && validator'(value) ==>
                  Unpacked(p, tag', size', validator') == Some((requestId, value)))
  {
  }

  /** For any message at all: unpacking returns an id and a value exactly when the message is, up to
      storage the value does not use, what packing them with that tag leaves, and the reader's
      validator accepts the value. */
  lemma UnpackedExactly(v: Value, tag: int, size: nat, validator: Validator, requestId: u32, value: seq<byte>)
    requires size <= |v.storage|
    ensures Unpacked(v, tag, size, validator) == Some((requestId, value)) <==>
              && |value| == size && validator(value) && v.whichMsg == 8
              && v == Packed(requestId, tag, value, |v.storage|).(storage := value + v.storage[size..])
  {
    assert v.storage == v.storage[..size] + v.storage[size..];
    if |value| == size {
      assert (value + v.storage[size..])[..size] == value;
    }
  }

  /** A reader of a larger value sees the packed one and then zeros only. */
  lemma UnusedIsZero(requestId: u32, tag: int, value: seq<byte>, storageSize: nat, i: nat)
    requires |value| <= i < storageSize
    ensures Packed(requestId, tag, value, storageSize).storage[i] == 0
  {
  }

  class Message {
    var whichMsg: int
    var requestId: u32
    var boardTag: int
    const storage: array<byte>

    constructor (storageSize: nat)
      ensures storage.Length == storageSize && fresh(storage)
    {
      whichMsg, requestId, boardTag := 0, 0, 0;
      storage := new byte[storageSize];
    }

    ghost function View(): Value
      reads this, storage
    {
      Value(whichMsg, requestId, boardTag, storage[..])
    }
  }

  method Pack(m: Message?, requestId: u32, tag: int, value: array?<byte>, validator: Validator) returns (r: Status)
    requires m != null && value != null ==> value != m.storage && value.Length <= m.storage.Length
    modifies m, if m == null then {} else {m.storage}
    ensures r == if m != null && value != null && validator(old(value[..])) then Success else Error
    ensures r == Success ==> m.View() == Packed(requestId, tag, old(value[..]), m.storage.Length)
    ensures r == Error && m != null ==> m.View() == old(m.View())
    ensures value != null ==> value[..] == old(value[..])
  {
    if m == null || value == null {
      return Error;
    }
    if !validator(value[..]) {
      return Error;
    }
    m.whichMsg := 0;
    m.requestId := 0;
    m.boardTag := 0;
    forall i | 0 <= i < m.storage.Length {
      m.storage[i] := 0;
    }
    m.whichMsg := BOARD_TAG;
    m.requestId := requestId;
    m.boardTag := tag;
    forall i | 0 <= i < value.Length {
      m.storage[i] := value[i];
    }
    assert m.storage[..] == value[..] + seq(m.storage.Length - value.Length, _ => 0 as byte);
    return Success;
  }

  method Unpack(m: Message?, tag: int, requestIdOut: array?<u32>, out: array?<byte>, validator: Validator)
    returns (r: Status)
    requires requestIdOut != null ==> requestIdOut.Length == 1
    requires m != null && out != null ==> out != m.storage && out.Length <= m.storage.Length
    modifies requestIdOut, out
    ensures r == if m != null && out != null && Unpacked(m.View(), tag, out.Length, validator).Some?
                 then Success else Error
    ensures r == Success ==> out[..] == Unpacked(m.View(), tag, out.Length, validator).value.1
    ensures r == Success && requestIdOut != null ==>
              requestIdOut[0] == Unpacked(m.View(), tag, out.Length, validator).value.0
    ensures r == Error ==>
              && (out != null ==> out[..] == old(out[..]))
              && (requestIdOut != null ==> requestIdOut[..] == old(requestIdOut[..]))
  {
    if m == null || out == null {
      return Error;
    }
    if m.whichMsg != BOARD_TAG {
      return Error;
    }
    if m.boardTag != tag {
      return Error;
    }
    if !validator(m.storage[..out.Length]) {
      return Error;
    }
    if requestIdOut != null {
      requestIdOut[0] := m.requestId;
    }
    forall i | 0 <= i < out.Length {
      out[i] := m.storage[i];
    }
    return Success;
  }

  /** For any message pair: what a validator accepts comes back unchanged whatever the message held
      before, and a parser with another tag fails and leaves its outputs alone. */
  method RoundTrip(m: Message, requestId: u32, tag: int, value: array<byte>, validator: Validator,
                   otherTag: int, otherId: array<u32>, other: array<byte>, otherValidator: Validator)
    returns (packed: Status, parsed: Status, id: u32, back: array<byte>, refused: Status)
    requires value != m.storage && value.Length <= m.storage.Length
    requires other != m.storage && other.Length <= m.storage.Length && otherId.Length == 1
    requires otherTag != tag
    modifies m, m.storage, otherId, other
    ensures validator(old(value[..])) ==>
              && packed == Success && parsed == Success && refused == Error
              && id == requestId && back[..] == old(value[..])
              && other[..] == old(other[..]) && otherId[..] == old(otherId[..])
    ensures !validator(old(value[..])) ==> packed == Error && m.View() == old(m.View())
  {
    packed := Pack(m, requestId, tag, value, validator);
    if packed == Success {
      UnpackPacked(requestId, tag, old(value[..]), m.storage.Length, tag, value.Length, validator);
      UnpackPacked(requestId, tag, old(value[..]), m.storage.Length, otherTag, other.Length, otherValidator);
    }
    back := new byte[value.Length];
    var idOut := new u32[1];
    parsed := Unpack(m, tag, idOut, back, validator);
    id := idOut[0];
    refused := Unpack(m, otherTag, otherId, other, otherValidator);
  }
}

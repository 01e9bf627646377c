/** The byte ring of src/ringbuf.c: 1024 slots, of which at most 1023 are in use. */
module RingBuf {
  import opened Types

  /** Number of bytes between tail and head. */
  function Used(head: int, tail: int): (n: nat)
    requires 0 <= head < RING_SLOTS && 0 <= tail < RING_SLOTS
  {
    (RING_SLOTS + head - tail) % RING_SLOTS
  }

  function Slot(tail: int, i: int): int
    requires 0 <= tail && 0 <= i
  {
    (tail + i) % RING_SLOTS
  }

  /** The queue that a ring stands for: the bytes from tail up to head, across the wrap. */
  ghost function View(data: seq<byte>, head: int, tail: int): (q: seq<byte>)
    requires |data| == RING_SLOTS
    requires 0 <= head < RING_SLOTS && 0 <= tail < RING_SLOTS
  {
    seq(Used(head, tail), i requires 0 <= i < Used(head, tail) => data[Slot(tail, i)])
  }

  /** The two formulas without the modulus, for a walk of at most one lap. */
  lemma UsedIs(head: int, tail: int)
    requires 0 <= head < RING_SLOTS && 0 <= tail < RING_SLOTS
    ensures Used(head, tail) == if tail <= head then head - tail else RING_SLOTS + head - tail
  {
  }

  lemma SlotIs(tail: int, i: nat)
    requires 0 <= tail < RING_SLOTS && i <= RING_SLOTS
    ensures Slot(tail, i) == if tail + i < RING_SLOTS then tail + i else tail + i - RING_SLOTS
  {
  }

  lemma UsedAfterPush(head: int, tail: int)
    requires 0 <= head < RING_SLOTS && 0 <= tail < RING_SLOTS
    requires Used(head, tail) < RING_CAPACITY
    ensures (head + 1) % RING_SLOTS == Slot(head, 1)
    ensures Used(Slot(head, 1), tail) == Used(head, tail) + 1
    ensures forall i | 0 <= i <= Used(head, tail) :: Slot(tail, i) == head <==> i == Used(head, tail)
  {
    SlotIs(head, 1);
    UsedIs(head, tail);
    UsedIs(Slot(head, 1), tail);
    assert (head + 1) % RING_SLOTS == Slot(head, 1);
    hide Used, Slot;
    forall i | 0 <= i <= Used(head, tail)
      ensures Slot(tail, i) == head <==> i == Used(head, tail)
    {
      SlotIs(tail, i);
    }
  }

  /** A queue of at most 1023 bytes has room exactly as long as head does not catch up with tail. */
  lemma ViewAfterPush(data: seq<byte>, head: int, tail: int, b: byte)
    requires |data| == RING_SLOTS
    requires 0 <= head < RING_SLOTS && 0 <= tail < RING_SLOTS
    requires Used(head, tail) < RING_CAPACITY
    ensures View(data[head := b], (head + 1) % RING_SLOTS, tail) == View(data, head, tail) + [b]
  {
    UsedAfterPush(head, tail);
    hide Used, Slot;
    var before, after := View(data, head, tail), View(data[head := b], (head + 1) % RING_SLOTS, tail);
    assert |after| == |before| + 1;
  }

  lemma {:induction false} WrapLaps(a: nat, laps: nat)
    ensures (a + RING_SLOTS * laps) % RING_SLOTS == a % RING_SLOTS
  {
    if laps > 0 {
      WrapLaps(a, laps - 1);
    }
  }

  lemma WrapAdd(a: nat, b: nat)
    ensures (a % RING_SLOTS + b) % RING_SLOTS == (a + b) % RING_SLOTS
  {
    WrapLaps(a % RING_SLOTS + b, a / RING_SLOTS);
    assert a % RING_SLOTS + b + RING_SLOTS * (a / RING_SLOTS) == a + b;
  }

  lemma SlotSkips(tail: nat, n: nat, i: nat)
    ensures Slot((tail + n) % RING_SLOTS, i) == Slot(tail, n + i)
  {
    WrapAdd(tail + n, i);
  }

  lemma UsedAfterSkip(head: int, tail: int, n: nat)
    requires 0 <= head < RING_SLOTS && 0 <= tail < RING_SLOTS
    requires n <= Used(head, tail)
    ensures (tail + n) % RING_SLOTS == Slot(tail, n)
    ensures Used(head, Slot(tail, n)) == Used(head, tail) - n
  {
    assert (tail + n) % RING_SLOTS == Slot(tail, n);
    hide Used, Slot;
    UsedIs(head, tail);
    SlotIs(tail, n);
    UsedIs(head, Slot(tail, n));
  }

  lemma ViewAfterSkip(data: seq<byte>, head: int, tail: int, n: nat)
    requires |data| == RING_SLOTS
    requires 0 <= head < RING_SLOTS && 0 <= tail < RING_SLOTS
    requires n <= Used(head, tail)
    ensures View(data, head, (tail + n) % RING_SLOTS) == View(data, head, tail)[n..]
  {
    UsedAfterSkip(head, tail, n);
    hide Used, Slot;
    var next := (tail + n) % RING_SLOTS;
    var before, after := View(data, head, tail), View(data, head, next);
    assert |after| == |before| - n;
    forall i | 0 <= i < |after|
      ensures after[i] == before[n..][i]
    {
      SlotSkips(tail, n, i);
    }
  }

  /** The oldest `size` bytes are one stretch of the array, or two across its end. */
  lemma PrefixInTwoPieces(data: seq<byte>, head: int, tail: int, size: nat)
    requires |data| == RING_SLOTS
    requires 0 <= head < RING_SLOTS && 0 <= tail < RING_SLOTS
    requires size <= Used(head, tail)
    ensures size < RING_SLOTS
    ensures forall i | 0 <= i < size ::
              View(data, head, tail)[i] == data[if tail + i < RING_SLOTS then tail + i else tail + i - RING_SLOTS]
  {
    UsedIs(head, tail);
    hide Used, Slot;
    forall i: nat | i < size
      ensures Slot(tail, i) == if tail + i < RING_SLOTS then tail + i else tail + i - RING_SLOTS
    {
      SlotIs(tail, i);
    }
  }

  class RingBuf {
    var head: int
    var tail: int
    const data: array<byte>

    ghost predicate Valid()
      reads this
    {
      && data.Length == RING_SLOTS
      && 0 <= head < RING_SLOTS
      && 0 <= tail < RING_SLOTS
    }

    ghost function Contents(): (q: seq<byte>)
      requires Valid()
      reads this, data
      ensures |q| <= RING_CAPACITY
    {
      View(data[..], head, tail)
    }

    /** A ring on freshly allocated storage, as left by Init. */
    constructor ()
      ensures Valid() && fresh(data)
      ensures Contents() == []
    {
      head, tail := 0, 0;
      data := new byte[RING_SLOTS];
    }

    method Init()
      requires data.Length == RING_SLOTS
      modifies this
      ensures Valid()
      ensures Contents() == []
    {
      head := 0;
      tail := 0;
    }

    method GetSize() returns (n: int)
      requires Valid()
      ensures n == |Contents()|
    {
      n := (RING_SLOTS + head - tail) % RING_SLOTS;
    }

    method GetFreeSize() returns (n: int)
      requires Valid()
      ensures n == RING_CAPACITY - |Contents()| && 0 <= n <= RING_CAPACITY
    {
      var size := GetSize();
      n := RING_CAPACITY - size;
    }

    method Push(b: byte) returns (r: Status)
      requires Valid()
      modifies this, data
      ensures Valid()
      ensures r == if |old(Contents())| < RING_CAPACITY then Success else RingFull
      ensures Contents() == if r == Success then old(Contents()) + [b] else old(Contents())
    {
      var free := GetFreeSize();
      if free > 0 {
        ViewAfterPush(data[..], head, tail, b);
        var newHead := (head + 1) % RING_SLOTS;
        data[head] := b;
        head := newHead;
        return Success;
      }
      return RingFull;
    }

    method Pull() returns (r: Status, b: byte)
      requires Valid()
      modifies this
      ensures Valid()
      ensures r == if |old(Contents())| > 0 then Success else RingEmpty
      ensures old(Contents()) == if r == Success then [b] + Contents() else Contents()
    {
      b := 0;
      var size := GetSize();
      if size > 0 {
        ViewAfterSkip(data[..], head, tail, 1);
        b := data[tail];
        var newTail := (tail + 1) % RING_SLOTS;
        tail := newTail;
        return Success, b;
      }
      return RingEmpty, b;
    }

    /** Copies the first `size` queued bytes out, in up to two pieces, leaving the ring as it is. */
    method Copy(dst: array<byte>, size: int) returns (r: Status)
      requires Valid()
      requires dst != data
      requires size <= |Contents()| ==> size <= dst.Length
      modifies dst
      ensures r == if size <= |Contents()| then Success else Error
      ensures r == Success && size >= 0 ==> dst[..size] == Contents()[..size] && dst[size..] == old(dst[size..])
      ensures r == Error || size < 0 ==> dst[..] == old(dst[..])
    {
      var used := GetSize();
      if size > used {
        return Error;
      }
      ghost var queued := Contents();
      if size >= 0 {
        PrefixInTwoPieces(data[..], head, tail, size);
      }
      hide Used, Slot, View;

      var first, second := 0, 0;
      if tail + size > RING_SLOTS {
        first := RING_SLOTS - tail;
        second := (size - first) % RING_SLOTS;
      } else {
        first := size;
      }

      if first > 0 {
        forall i | 0 <= i < first {
          dst[i] := data[tail + i];
        }
      }
      if second > 0 {
        forall i | 0 <= i < second {
          dst[first + i] := data[i];
        }
      }
      assert forall i | 0 <= i < size :: dst[i] == queued[i];
      return Success;
    }

    method Skip(size: int) returns (r: Status)
      requires Valid()
      requires size >= 0
      modifies this
      ensures Valid()
      ensures r == if size <= |old(Contents())| then Success else Error
      ensures Contents() == if r == Success then old(Contents())[size..] else old(Contents())
    {
      var used := GetSize();
      if used < size {
        return Error;
      }
      ViewAfterSkip(data[..], head, tail, size);
      tail := (tail + size) % RING_SLOTS;
      return Success;
    }
  }
}

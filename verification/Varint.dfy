/** Base 128 varints as in the Protocol Buffers encoding guide, section "Base 128 Varints". */
module Varint {
  import opened Types

  function Encode(n: nat): (s: seq<byte>)
    ensures |s| >= 1
  {
    if n < 0x80 then [n as byte] else [(n % 0x80 + 0x80) as byte] + Encode(n / 0x80)
  }

  /** The value at the front of a stream and the bytes behind it; None if no varint ends there. */
  function Decode(s: seq<byte>): (r: Option<(nat, seq<byte>)>)
    ensures r.Some? ==> |r.value.1| < |s|
    decreases |s|
  {
    if s == [] then None
    else if s[0] < 0x80 then Some((s[0] as nat, s[1..]))
    else
      match Decode(s[1..])
      case None => None
      case Some((high, rest)) => Some((s[0] as nat - 0x80 + 0x80 * high, rest))
  }

  lemma {:induction false} DecodeEncode(n: nat, t: seq<byte>)
    ensures Decode(Encode(n) + t) == Some((n, t))
    decreases n
  {
    var s := Encode(n) + t;
    if n < 0x80 {
      assert s[1..] == t;
    } else {
      assert s[1..] == Encode(n / 0x80) + t;
      DecodeEncode(n / 0x80, t);
    }
  }

  /** The seven low bits of each byte, least significant group first. */
  function Weight(s: seq<byte>): nat {
    if s == [] then 0 else s[0] as nat % 0x80 + 0x80 * Weight(s[1..])
  }

  /** The format: groups of seven bits, the top bit set in all bytes but the last. */
  lemma {:induction false} EncodeFormat(n: nat)
    ensures var s := Encode(n);
            Weight(s) == n && forall i | 0 <= i < |s| :: s[i] >= 0x80 <==> i < |s| - 1
    decreases n
  {
    var s := Encode(n);
    if n < 0x80 {
      assert Weight(s[1..]) == 0;
    } else {
      EncodeFormat(n / 0x80);
      assert s[1..] == Encode(n / 0x80);
      forall i | 0 <= i < |s|
        ensures s[i] >= 0x80 <==> i < |s| - 1
      {
        assert i > 0 ==> s[i] == s[1..][i - 1];
      }
    }
  }

  function Size(n: nat): nat {
    |Encode(n)|
  }

  function Pow128(k: nat): nat {
    if k == 0 then 1 else 0x80 * Pow128(k - 1)
  }

  /** A varint has at most k bytes exactly when the value has at most k groups of seven bits. */
  lemma {:induction false} SizeExactly(n: nat, k: nat)
    requires k >= 1
    ensures Size(n) <= k <==> n < Pow128(k)
    decreases k
  {
    if k == 1 {
      assert Pow128(1) == 0x80 * Pow128(0) == 0x80;
    } else {
      if n >= 0x80 {
        SizeExactly(n / 0x80, k - 1);
      } else {
        PowPositive(k - 1);
      }
    }
  }

  lemma {:induction false} PowPositive(k: nat)
    ensures Pow128(k) >= 1
  {
    if k > 0 {
      PowPositive(k - 1);
    }
  }

  lemma PowValues()
    ensures Pow128(1) == 0x80 && Pow128(2) == 0x4000
    ensures Pow128(4) == 0x1000_0000 && Pow128(5) == 0x8_0000_0000
    ensures Pow128(10) == 0x40_0000_0000_0000_0000
  {
  }

  /** The sizes needed for 7-, 14-, 32- and 64-bit fields. */
  lemma SizeBounds(n: nat)
    ensures Size(n) == 1 <==> n < 0x80
    ensures Size(n) <= 2 <==> n < 0x4000
    ensures Size(n) <= 4 <==> n < 0x1000_0000
    ensures n < 0x1_0000_0000 ==> Size(n) <= 5
    ensures n < 0x1_0000_0000_0000_0000 ==> Size(n) <= 10
  {
    PowValues();
    SizeExactly(n, 1);
    SizeExactly(n, 2);
    SizeExactly(n, 4);
    SizeExactly(n, 5);
    SizeExactly(n, 10);
  }
}

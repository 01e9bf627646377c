/** The capability tables of src/discovery.c: descriptors up to an entry whose domain is zero. */
module Discovery {
  import opened Types
  import Varint

  datatype Desc = Desc(domain: bv32, cap: bv32, commands: bv64)

  /** The table has an end, which the loops rely on. */
  ghost predicate Terminated(table: seq<Desc>) {
    exists i | 0 <= i < |table| :: table[i].domain == 0
  }

  /** The entries before the first with domain zero. */
  function Live(table: seq<Desc>): (live: seq<Desc>)
    ensures live <= table
  {
    if table == [] || table[0].domain == 0 then [] else [table[0]] + Live(table[1..])
  }

  /** The entries before the first with domain or capabilities zero. */
  function Advertised(table: seq<Desc>): (shown: seq<Desc>)
    ensures shown <= table
  {
    if table == [] || table[0].cap == 0 || table[0].domain == 0 then [] else [table[0]] + Advertised(table[1..])
  }

  ghost predicate HasDomain(entries: seq<Desc>, domain: bv32) {
    exists i | 0 <= i < |entries| :: entries[i].domain == domain
  }

  lemma {:induction false} LiveExactly(table: seq<Desc>, n: nat)
    requires n < |table| && table[n].domain == 0
    requires forall i | 0 <= i < n :: table[i].domain != 0
    ensures Live(table) == table[..n]
    decreases n
  {
    if n > 0 {
      LiveExactly(table[1..], n - 1);
      assert table[..n] == [table[0]] + table[1..][..n - 1];
    }
  }

  lemma {:induction false} AdvertisedExactly(table: seq<Desc>, n: nat)
    requires n < |table| && (table[n].domain == 0 || table[n].cap == 0)
    requires forall i | 0 <= i < n :: table[i].domain != 0 && table[i].cap != 0
    ensures Advertised(table) == table[..n]
    decreases n
  {
    if n > 0 {
      AdvertisedExactly(table[1..], n - 1);
      assert table[..n] == [table[0]] + table[1..][..n - 1];
    }
  }

  lemma {:induction false} LiveReaches(table: seq<Desc>, n: nat)
    requires n < |table| && forall i | 0 <= i <= n :: table[i].domain != 0
    ensures n < |Live(table)| && Live(table)[n] == table[n]
    decreases n
  {
    if n > 0 {
      LiveReaches(table[1..], n - 1);
    }
  }

  lemma {:induction false} AdvertisedReaches(table: seq<Desc>, n: nat)
    requires n < |table| && forall i | 0 <= i <= n :: table[i].domain != 0 && table[i].cap != 0
    ensures n < |Advertised(table)| && Advertised(table)[..n + 1] == table[..n + 1]
    decreases n
  {
    if n > 0 {
      AdvertisedReaches(table[1..], n - 1);
    }
  }

  /** Only supported domains are advertised, and all of them are exactly when no live entry has
      empty capabilities. */
  lemma {:induction false} AdvertisedVsLive(table: seq<Desc>)
    ensures Advertised(table) <= Live(table)
    ensures Advertised(table) == Live(table) <==> forall i | 0 <= i < |Live(table)| :: Live(table)[i].cap != 0
  {
    if table != [] && table[0].domain != 0 {
      AdvertisedVsLive(table[1..]);
      var rest := Live(table[1..]);
      assert Live(table) == [table[0]] + rest;
      assert forall i | 0 <= i < |rest| :: Live(table)[i + 1] == rest[i];
      if table[0].cap == 0 {
        assert Live(table)[0].cap == 0;
      } else {
        assert Advertised(table) == [table[0]] + Advertised(table[1..]);
        if Advertised(table) == Live(table) {
          assert Advertised(table)[1..] == Advertised(table[1..]) && Live(table)[1..] == rest;
        }
        if forall i | 0 <= i < |Live(table)| :: Live(table)[i].cap != 0 {
          assert forall i | 0 <= i < |rest| :: rest[i].cap == Live(table)[i + 1].cap;
        }
      }
    }
  }

  method IsDomainSupported(table: seq<Desc>, domain: bv32) returns (found: bool)
    requires Terminated(table)
    ensures found <==> HasDomain(Live(table), domain)
  {
    var i := 0;
    ghost var end :| 0 <= end < |table| && table[end].domain == 0;
    while table[i].domain != 0
      invariant 0 <= i <= end
      invariant forall j | 0 <= j < i :: table[j].domain != 0 && table[j].domain != domain
      decreases end - i
    {
      if table[i].domain == domain {
        LiveReaches(table, i);
        return true;
      }
      i := i + 1;
    }
    LiveExactly(table, i);
    return false;
  }

  /** The command mask is that of the first entry for the domain, and 0 for an unsupported one. */
  method GetSupportedCommands(domain: bv32, table: seq<Desc>) returns (commands: bv64)
    requires Terminated(table)
    ensures !HasDomain(Live(table), domain) ==> commands == 0
    ensures HasDomain(Live(table), domain) ==>
              exists n | 0 <= n < |Live(table)| ::
                && Live(table)[n].domain == domain && commands == Live(table)[n].commands
                && forall i | 0 <= i < n :: Live(table)[i].domain != domain
  {
    commands := 0;
    var index := 0;
    ghost var end :| 0 <= end < |table| && table[end].domain == 0;
    while table[index].domain != 0
      invariant 0 <= index <= end && commands == 0
      invariant forall j | 0 <= j < index :: table[j].domain != 0 && table[j].domain != domain
      decreases end - index
    {
      if table[index].domain == domain {
        commands := table[index].commands;
        LiveReaches(table, index);
        return;
      }
      index := index + 1;
    }
    LiveExactly(table, index);
  }

  // ---------------------------------------------------------------- what is advertised

  const DOMAIN_BITS: bv32 := 0xff00_0000
  const CAP_BITS: bv32 := 0x00ff_ffff

  /** Domains are multiples of 2^24 and capabilities lie below 2^24. */
  predicate ValidDesc(d: Desc) {
    d.domain & CAP_BITS == 0 && d.cap & DOMAIN_BITS == 0
  }

  function Value(d: Desc): bv32 {
    d.domain | d.cap
  }

  /** The advertised value as the unsigned integer that is encoded. */
  function Number(d: Desc): nat {
    Value(d) as nat
  }

  /** An advertised value splits back into its domain and its capabilities. */
  lemma ValueSplits(d: Desc)
    requires ValidDesc(d)
    ensures Value(d) & DOMAIN_BITS == d.domain && Value(d) & CAP_BITS == d.cap
  {
  }

  /** Field 10, wire type 0. */
  const TAG: byte := 0x50

  function EncodeEntry(d: Desc): seq<byte> {
    [TAG] + Varint.Encode(Number(d))
  }

  function EncodeAll(entries: seq<Desc>): seq<byte> {
    if entries == [] then [] else EncodeEntry(entries[0]) + EncodeAll(entries[1..])
  }

  function Values(entries: seq<Desc>): seq<nat> {
    if entries == [] then [] else [Number(entries[0])] + Values(entries[1..])
  }

  /** How a receiver reads the repeated field back. */
  function DecodeAll(s: seq<byte>): Option<seq<nat>>
    decreases |s|
  {
    if s == [] then Some([])
    else if s[0] != TAG then None
    else
      match Varint.Decode(s[1..])
      case None => None
      case Some((n, rest)) =>
        match DecodeAll(rest)
        case None => None
        case Some(ns) => Some([n] + ns)
  }

  lemma DecodeEntry(d: Desc, rest: seq<byte>)
    ensures DecodeAll(EncodeEntry(d) + rest) ==
            match DecodeAll(rest)
            case None => None
            case Some(ns) => Some([Number(d)] + ns)
  {
    hide Number, Varint.Decode, Varint.Encode;
    var s := EncodeEntry(d) + rest;
    assert s[1..] == Varint.Encode(Number(d)) + rest;
    Varint.DecodeEncode(Number(d), rest);
  }

  /** The encoded field decodes to exactly the advertised values, in table order. */
  lemma {:induction false} DecodeEncodeAll(entries: seq<Desc>)
    ensures DecodeAll(EncodeAll(entries)) == Some(Values(entries))
  {
    hide Number, EncodeEntry;
    if entries != [] {
      DecodeEntry(entries[0], EncodeAll(entries[1..]));
      DecodeEncodeAll(entries[1..]);
    }
  }

  /** The number holds the domain in its top byte and the capabilities in the 24 bits below. */
  ghost predicate Carries(n: nat, v: bv32, d: Desc) {
    n == v as nat && v & DOMAIN_BITS == d.domain && v & CAP_BITS == d.cap
  }

  ghost predicate Arrives(n: nat, d: Desc) {
    exists v: bv32 :: Carries(n, v, d)
  }

  lemma NumberArrives(d: Desc)
    requires ValidDesc(d)
    ensures Arrives(Number(d), d)
  {
    ValueSplits(d);
    assert Carries(Number(d), Value(d), d);
  }

  lemma {:induction false} ValuesArrive(entries: seq<Desc>)
    requires forall i | 0 <= i < |entries| :: ValidDesc(entries[i])
    ensures |Values(entries)| == |entries|
    ensures forall i | 0 <= i < |entries| :: Arrives(Values(entries)[i], entries[i])
  {
    hide Number, Arrives, ValidDesc;
    if entries != [] {
      ValuesArrive(entries[1..]);
      NumberArrives(entries[0]);
    }
  }

  /** So a receiver finds the domain and the capabilities of every entry in the encoded field. */
  lemma EveryEntryArrives(entries: seq<Desc>)
    requires forall i | 0 <= i < |entries| :: ValidDesc(entries[i])
    ensures DecodeAll(EncodeAll(entries)).Some?
    ensures var ns := DecodeAll(EncodeAll(entries)).value;
            |ns| == |entries| && forall i | 0 <= i < |entries| :: Arrives(ns[i], entries[i])
  {
    hide DecodeAll, EncodeAll, Values, Arrives, ValidDesc;
    DecodeEncodeAll(entries);
    ValuesArrive(entries);
  }

  lemma {:induction false} EncodeAllSnoc(entries: seq<Desc>, d: Desc)
    ensures EncodeAll(entries + [d]) == EncodeAll(entries) + EncodeEntry(d)
  {
    hide EncodeEntry;
    if entries == [] {
      assert EncodeAll([d]) == EncodeEntry(d) + [];
    } else {
      assert (entries + [d])[1..] == entries[1..] + [d];
      EncodeAllSnoc(entries[1..], d);
    }
  }

  lemma {:induction false} EncodeAllPrefix(entries: seq<Desc>, k: nat)
    requires k <= |entries|
    ensures EncodeAll(entries[..k]) <= EncodeAll(entries)
    decreases k
  {
    hide EncodeEntry;
    if k > 0 {
      EncodeAllPrefix(entries[1..], k - 1);
      assert entries[..k][1..] == entries[1..][..k - 1];
    }
  }

  /** An output stream of bounded size; a write that does not fit fails and writes nothing. */
  class OStream {
    var bytes: seq<byte>
    const max: nat

    constructor (max: nat)
      ensures bytes == [] && this.max == max
    {
      bytes := [];
      this.max := max;
    }

    method Write(data: seq<byte>) returns (ok: bool)
      modifies this
      ensures ok <==> |old(bytes)| + |data| <= max
      ensures bytes == old(bytes) + if ok then data else []
    {
      if |bytes| + |data| > max {
        return false;
      }
      bytes := bytes + data;
      return true;
    }
  }

  /** One round of the callback's loop: the tag, then the value. */
  method WriteEntry(stream: OStream, d: Desc) returns (ok: bool)
    requires |stream.bytes| <= stream.max
    modifies stream
    ensures |stream.bytes| <= stream.max
    ensures ok <==> |old(stream.bytes) + EncodeEntry(d)| <= stream.max
    ensures stream.bytes <= old(stream.bytes) + EncodeEntry(d)
    ensures ok ==> stream.bytes == old(stream.bytes) + EncodeEntry(d)
  {
    hide Varint.Encode, Value;
    ghost var all := EncodeEntry(d);
    assert all == [TAG] + Varint.Encode(Number(d));
    ok := stream.Write([TAG]);
    assert old(stream.bytes) + [TAG] + Varint.Encode(Number(d)) == old(stream.bytes) + all;
    if ok {
      var value := Number(d);
      ok := stream.Write(Varint.Encode(value));
    }
  }

  lemma Behind(before: seq<byte>, written: seq<byte>, entry: seq<byte>, next: seq<byte>, all: seq<byte>)
    requires written + entry == next <= all
    ensures before + written + entry == before + next
    ensures before + next <= before + all
  {
    assert all == next + all[|next|..];
  }

  lemma NextEntry(table: seq<Desc>, n: nat)
    requires n < |table|
    ensures EncodeAll(table[..n]) + EncodeEntry(table[n]) == EncodeAll(table[..n + 1])
  {
    hide EncodeAll, EncodeEntry;
    assert table[..n + 1] == table[..n] + [table[n]];
    EncodeAllSnoc(table[..n], table[n]);
  }

  lemma ReachedBehind(table: seq<Desc>, n: nat)
    requires n < |table| && forall i | 0 <= i <= n :: table[i].domain != 0 && table[i].cap != 0
    ensures EncodeAll(table[..n + 1]) <= EncodeAll(Advertised(table))
  {
    hide EncodeAll, Advertised;
    AdvertisedReaches(table, n);
    EncodeAllPrefix(Advertised(table), n + 1);
  }

  lemma EntryFits(table: seq<Desc>, n: nat, before: seq<byte>)
    requires n < |table| && forall i | 0 <= i <= n :: table[i].domain != 0 && table[i].cap != 0
    ensures before + EncodeAll(table[..n]) + EncodeEntry(table[n]) == before + EncodeAll(table[..n + 1])
    ensures before + EncodeAll(table[..n + 1]) <= before + EncodeAll(Advertised(table))
  {
    hide EncodeAll, EncodeEntry, Advertised;
    NextEntry(table, n);
    ReachedBehind(table, n);
    Behind(before, EncodeAll(table[..n]), EncodeEntry(table[n]), EncodeAll(table[..n + 1]), EncodeAll(Advertised(table)));
  }

  /** The encoding callback of the capabilities field: it succeeds iff everything fits, and what it
      writes is exactly the advertised entries, or a prefix of their encoding when it fails. */
  method EnumCapabilities(stream: OStream?, isCapabilitiesField: bool, table: seq<Desc>) returns (ok: bool)
    requires Terminated(table)
    requires stream != null ==> |stream.bytes| <= stream.max
    modifies stream
    ensures stream == null || !isCapabilitiesField ==> ok && (stream != null ==> stream.bytes == old(stream.bytes))
    ensures stream != null && isCapabilitiesField ==>
              && (ok <==> |old(stream.bytes) + EncodeAll(Advertised(table))| <= stream.max)
              && stream.bytes <= old(stream.bytes) + EncodeAll(Advertised(table))
              && (ok ==> stream.bytes == old(stream.bytes) + EncodeAll(Advertised(table)))
  {
    hide EncodeEntry, Advertised;
    if stream != null && isCapabilitiesField {
      ghost var before := stream.bytes;
      ghost var end :| 0 <= end < |table| && table[end].domain == 0;
      var i := 0;
      while table[i].cap != 0 && table[i].domain != 0
        invariant 0 <= i <= end
        invariant forall j | 0 <= j < i :: table[j].domain != 0 && table[j].cap != 0
        invariant stream.bytes == before + EncodeAll(table[..i])
        invariant |stream.bytes| <= stream.max
        decreases end - i
      {
        EntryFits(table, i, before);
        ok := WriteEntry(stream, table[i]);
        if !ok {
          return false;
        }
        i := i + 1;
      }
      AdvertisedExactly(table, i);
    }
    return true;
  }

}

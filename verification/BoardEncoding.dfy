/** Board messages as bytes: what the table of fields encodes to. The sizes of BoardSize are the
    lengths of these bytes, and the bytes tell every field. */
module BoardEncoding {
  import opened Types
  import opened BoardMessages
  import opened BoardSchema
  import opened W = ProtoWire
  import S = BoardSize
  import Varint

  function Body(fs: Fields): seq<byte> {
    Encode(Items(fs, 1))
  }

  /** The bytes of a message. */
  function Wire(m: Board): seq<byte> {
    Body(FieldsOf(m))
  }

  // ---------------------------------------------------------------- sizes

  lemma KeySize(tag: nat)
    requires 1 <= tag <= 15
    ensures |Varint.Encode(8 * tag)| == 1 && |Varint.Encode(8 * tag + 2)| == 1
  {
  }

  lemma ItemSize(item: Item)
    requires 1 <= item.tag <= 15
    ensures |EncodeItem(item)| == if item.Int? then S.Always(item.value) else S.Delimited(|item.bytes|)
  {
    KeySize(item.tag);
    hide Varint.Encode;
  }

  lemma OneItem(item: Item)
    ensures Encode([item]) == EncodeItem(item)
  {
    assert Encode([item]) == EncodeItem(item) + [];
  }

  function OptionalWidth(o: Option<nat>): nat {
    if o.Some? then S.Always(o.value) else 0
  }

  /** What a field takes on the wire. */
  function Width(f: Field): nat {
    match f
    case Number(n) => S.UInt(n)
    case Flag(b) => S.Bool(b)
    case Signed(i) => S.SInt(i)
    case Enum(n, _) => S.UInt(n)
    case Optional(o) => OptionalWidth(o)
    case OptionalEnum(o, _) => OptionalWidth(o)
    case Bytes(size, _) => S.Blob(size)
    case Fixed(size) => S.Delimited(size)
    case Text(chars) => S.Text(chars)
    case Packed(_, _, values) => S.Blob(|Varints(values)|)
    case Message(present, fields) => if present then S.Delimited(|Body(fields)|) else 0
    case Repeated(_, _, elements) => ElementsWidth(elements)
  }

  function ElementsWidth(fs: Fields): nat {
    match fs
    case Nil => 0
    case Cons(f, rest) => S.Delimited(|Contents(f)|) + ElementsWidth(rest)
  }

  lemma {:induction false} ElementsSize(fs: Fields, tag: nat)
    requires 1 <= tag <= 15
    ensures |Encode(Elements(fs, tag))| == ElementsWidth(fs)
  {
    hide EncodeItem, Contents, S.Delimited;
    if fs.Cons? {
      ItemSize(Data(tag, Contents(fs.head)));
      ElementsSize(fs.tail, tag);
      assert Elements(fs, tag)[1..] == Elements(fs.tail, tag);
    }
  }

  lemma WidthIs(f: Field, tag: nat)
    requires 1 <= tag <= 15
    ensures |Encode(ItemsOf(f, tag))| == Width(f)
  {
    if f.Repeated? {
      ElementsSize(f.elements, tag);
    } else if ItemsOf(f, tag) != [] {
      var item := ItemsOf(f, tag)[0];
      assert ItemsOf(f, tag) == [item];
      OneItem(item);
      ItemSize(item);
    }
    hide EncodeItem, Items, Varints;
  }

  function Sum(fs: Fields): nat {
    match fs
    case Nil => 0
    case Cons(f, rest) => Width(f) + Sum(rest)
  }

  /** The size of a message of up to 15 fields, whose keys take one byte each. */
  lemma {:induction false} SizeIsSum(fs: Fields, tag: nat)
    requires 1 <= tag && tag + Count(fs) <= 16
    ensures |Encode(Items(fs, tag))| == Sum(fs)
  {
    hide Width, ItemsOf;
    if fs.Cons? {
      WidthIs(fs.head, tag);
      SizeIsSum(fs.tail, tag + 1);
      EncodeAppend(ItemsOf(fs.head, tag), Items(fs.tail, tag + 1));
    }
  }

  /** How a size is put together, one field at a time. */
  lemma SizeRules()
    ensures Count(Nil) == 0 && Sum(Nil) == 0
    ensures forall f: Field, rest: Fields :: Sum(Cons(f, rest)) == Width(f) + Sum(rest)
    ensures forall n: nat :: Width(Number(n)) == S.UInt(n)
    ensures forall b: bool :: Width(Flag(b)) == S.Bool(b)
    ensures forall i: i32 :: Width(Signed(i)) == S.SInt(i)
    ensures forall n: nat, last: nat :: Width(Enum(n, last)) == S.UInt(n)
    ensures forall n: nat, capacity: nat :: Width(W.Bytes(n, capacity)) == S.Blob(n)
    ensures forall n: nat :: Width(Fixed(n)) == S.Delimited(n)
    ensures forall chars: seq<byte> :: Width(W.Text(chars)) == S.Text(chars)
    ensures forall fs: Fields :: Width(Message(true, fs)) == S.Delimited(|Body(fs)|)
    ensures Width(Message(false, Nil)) == 0
    ensures forall n: nat, capacity: nat, fs: Fields :: Width(Repeated(n, capacity, fs)) == ElementsWidth(fs)
    ensures forall n: nat, capacity: nat, values: seq<nat> ::
              Width(Packed(n, capacity, values)) == S.Blob(|Varints(values)|)
    ensures forall o: Option<nat> :: Width(Optional(o)) == OptionalWidth(o)
    ensures forall o: Option<nat>, last: nat :: Width(OptionalEnum(o, last)) == OptionalWidth(o)
  {
    hide Body, ElementsWidth, Varints, OptionalWidth, S.UInt, S.Bool, S.SInt, S.Blob, S.Delimited, S.Text;
  }

  lemma LeaseSize(l: Lease)
    ensures |Body(LeaseFields(l))| == S.LeaseBody(l)
  {
    SizeRules();
    hide Width, Count, Sum, S.UInt;
    SizeIsSum(LeaseFields(l), 1);
  }

  lemma MappingSize(m: Mapping)
    ensures |Contents(MappingField(m))| == S.MappingBody(m)
  {
    SizeRules();
    hide Width, Count, Sum, S.UInt, S.SInt;
    SizeIsSum(MappingField(m).fields, 1);
  }

  lemma {:induction false} MappingsSize(ms: seq<Mapping>)
    ensures ElementsWidth(MappingList(ms)) == S.MappingFields(ms)
  {
    hide S.MappingBody, S.Delimited, MappingField, Contents;
    if ms != [] {
      MappingSize(ms[0]);
      MappingsSize(ms[1..]);
    }
  }

  lemma ProfileSize(p: Profile)
    ensures |Body(ProfileFields(p))| == S.ProfileBody(p)
  {
    SizeRules();
    hide Width, Count, Sum, MappingList, ElementsWidth, S.UInt, S.Text, S.Bool, S.MappingFields;
    MappingsSize(p.mappings[..Min(p.count, 16)]);
    SizeIsSum(ProfileFields(p), 1);
  }

  lemma {:induction false} NamesSize(names: seq<Chars16>)
    ensures ElementsWidth(NameList(names)) == S.NameFields(names)
  {
    hide Length, S.Delimited;
    if names != [] {
      NamesSize(names[1..]);
    }
  }

  lemma {:induction false} RatesSize(values: seq<u32>)
    ensures |Varints(values)| == S.PackedLength(values)
  {
    if values != [] {
      RatesSize(values[1..]);
    }
  }

  lemma DescriptorSize(d: Descriptor)
    ensures |Body(DescriptorFields(d))| == S.DescriptorBody(d)
  {
    SizeRules();
    hide Width, Count, Sum, NameList, ElementsWidth, Varints, S.UInt, S.Text, S.Blob, S.NameFields, S.PackedLength;
    NamesSize(d.names[..Min(d.nameCount, 10)]);
    RatesSize(d.rates[..Min(d.rateCount, 8)]);
    SizeIsSum(DescriptorFields(d), 1);
  }

  lemma NatWidth(o: Option<u32>)
    ensures OptionalWidth(Nat(o)) == S.OptionalUInt(o)
  {
  }

  lemma UpdateSize(persisted: Option<u32>, eventFilter: Option<u32>, packetFilter: Option<u32>)
    ensures |Body(Of3(OptionalEnum(Nat(persisted), 2), Optional(Nat(eventFilter)), Optional(Nat(packetFilter))))| ==
            S.OptionalUInt(persisted) + S.OptionalUInt(eventFilter) + S.OptionalUInt(packetFilter)
  {
    SizeRules();
    hide Width, Count, Sum, Nat, OptionalWidth, S.OptionalUInt;
    NatWidth(persisted);
    NatWidth(eventFilter);
    NatWidth(packetFilter);
    SizeIsSum(Of3(OptionalEnum(Nat(persisted), 2), Optional(Nat(eventFilter)), Optional(Nat(packetFilter))), 1);
  }

  lemma SingleSize(n: nat)
    ensures |Body(Of1(Number(n)))| == S.UInt(n)
  {
    SizeRules();
    hide Width, Count, Sum, S.UInt;
    SizeIsSum(Of1(Number(n)), 1);
  }

  lemma OperationSize(operation: Operation)
    ensures Count(OperationFields(operation)) <= 9
    ensures Sum(OperationFields(operation)) == S.OperationField(operation)
  {
    SizeRules();
    hide Width, Count, Sum, Body, Nat, S.UInt, S.OptionalUInt, S.Delimited;
    if operation.Update? {
      UpdateSize(operation.persisted, operation.eventFilter, operation.packetFilter);
    } else if operation.OpenPairingWindow? {
      SingleSize(operation.duration);
    } else if operation.ClearBonds? {
      SingleSize(operation.nonce);
    }
  }

  lemma OptionalLeaseSize(lease: Option<Lease>)
    ensures Width(OptionalLease(lease)) == S.LeaseField(lease)
  {
    SizeRules();
    hide Width, Body, LeaseFields, S.LeaseBody, S.Delimited;
    if lease.Some? {
      LeaseSize(lease.value);
    }
  }

  lemma LeasedSize(m: Board)
    requires m.SetOutput? || m.I2cTransfer? || m.GpioConfigure? || m.GpioRead? || m.GpioWrite? || m.SpiTransfer?
    ensures Count(BusFields(m)) <= 9 && Sum(BusFields(m)) == S.BusBody(m)
  {
    SizeRules();
    hide Width, Count, Sum, OptionalLease, S.LeaseField, S.UInt, S.Bool, S.Blob;
    OptionalLeaseSize(m.lease);
  }

  lemma BusSize(m: Board)
    ensures Count(BusFields(m)) <= 9 && Sum(BusFields(m)) == S.BusBody(m)
  {
    if m.SetOutput? || m.I2cTransfer? || m.GpioConfigure? || m.GpioRead? || m.GpioWrite? || m.SpiTransfer? {
      LeasedSize(m);
      hide BusFields, S.BusBody, Count, Sum;
    } else {
      SizeRules();
      hide Width, Count, Sum, S.UInt, S.Bool;
    }
  }

  lemma ControlSize(m: Board)
    ensures Count(ControlFields(m)) <= 9 && Sum(ControlFields(m)) == S.ControlBody(m)
  {
    SizeRules();
    hide Width, Count, Sum, LeaseFields, ProfileFields, OperationFields, Body;
    hide S.UInt, S.SInt, S.Bool, S.Delimited, S.LeaseBody, S.ProfileBody, S.OperationField;
    if m.SetRuntimeConfig? {
      OperationSize(m.operation);
    }
    if m.ReleasePin? && m.lease.Some? {
      LeaseSize(m.lease.value);
    }
    if m.RemoteProfileSet? && m.profile.Some? {
      ProfileSize(m.profile.value);
    }
  }

  lemma ReportSize(m: Board)
    ensures Count(ReportFields(m)) <= 9 && Sum(ReportFields(m)) == S.ReportBody(m)
  {
    SizeRules();
    hide Width, Count, Sum, DescriptorFields, Body;
    hide S.UInt, S.Bool, S.Blob, S.Text, S.Delimited, S.DescriptorBody;
    if m.SensorDescriptor? && m.descriptor.Some? {
      DescriptorSize(m.descriptor.value);
    }
  }

  lemma OutcomeSize(m: Board)
    ensures Count(OutcomeFields(m)) <= 9 && Sum(OutcomeFields(m)) == S.OutcomeBody(m)
  {
    SizeRules();
    hide Width, Count, Sum, OptionalLease, S.LeaseField, ProfileFields, S.ProfileBody, Body;
    hide S.UInt, S.SInt, S.Bool, S.Blob, S.Delimited;
    if m.I2cResult? || m.GpioConfigured? || m.GpioValue? || m.SpiResult? {
      OptionalLeaseSize(m.lease);
    }
    if m.RemoteProfile? && m.profile.Some? {
      ProfileSize(m.profile.value);
    }
  }

  lemma EventSize(m: Board)
    ensures Count(EventFields(m)) <= 9 && Sum(EventFields(m)) == S.EventBody(m)
  {
    SizeRules();
    hide Width, Count, Sum, S.UInt, S.SInt, S.Bool, S.Blob, S.Text;
  }

  /** The size that the field list adds up to is the number of bytes of the encoded message, for every
      value, accepted or not. */
  lemma BodyIsWireSize(m: Board)
    ensures S.Body(m) == |Wire(m)|
  {
    hide IsBus, IsControl, IsReport, IsOutcome, Items, Encode, Count, Sum;
    hide BusFields, ControlFields, ReportFields, OutcomeFields, EventFields;
    hide S.BusBody, S.ControlBody, S.ReportBody, S.OutcomeBody, S.EventBody;
    BusSize(m);
    ControlSize(m);
    ReportSize(m);
    OutcomeSize(m);
    EventSize(m);
    SizeIsSum(FieldsOf(m), 1);
  }

  /** A Board message: the request id, if it is not zero, and the value under its tag. */
  function BoardItems(requestId: u32, m: Board): seq<Item> {
    ItemsOf(Number(requestId), 1) + [Data(S.TagOf(m), Wire(m))]
  }

  /** The whole message, of which the Board message is field 8. */
  function TopWire(requestId: u32, m: Board): seq<byte> {
    Encode([Data(8, Encode(BoardItems(requestId, m)))])
  }

  lemma ValueSize(item: Item)
    requires item.Data? && 2 <= item.tag <= 50
    ensures |EncodeItem(item)| == (if item.tag < 16 then 0 else 1) + S.Delimited(|item.bytes|)
  {
    Varint.SizeBounds(8 * item.tag + 2);
    hide Varint.Encode;
  }

  /** The sizes of BoardSize are those of the encoded messages. */
  lemma BoardSizeIsWireSize(requestId: u32, m: Board)
    ensures S.BoardMessage(requestId, m) == |Encode(BoardItems(requestId, m))|
  {
    var item := Data(S.TagOf(m), Wire(m));
    var id := Number(requestId);
    hide S.TagOf, S.Body, Wire, ItemsOf, Encode, S.UInt, Varint.Encode, EncodeItem;
    BodyIsWireSize(m);
    ValueSize(item);
    assert Width(id) == S.UInt(requestId);
    WidthIs(id, 1);
    hide Width;
    OneItem(item);
    EncodeAppend(ItemsOf(id, 1), [item]);
    assert |Encode(ItemsOf(id, 1) + [item])| == S.UInt(requestId) + |EncodeItem(item)|;
  }

  lemma TopLevelIsWireSize(requestId: u32, m: Board)
    ensures S.TopLevel(requestId, m) == |TopWire(requestId, m)|
  {
    hide BoardItems, S.BoardMessage, Encode, EncodeItem, S.Delimited;
    BoardSizeIsWireSize(requestId, m);
    var top := Data(8, Encode(BoardItems(requestId, m)));
    OneItem(top);
    ItemSize(top);
  }
}

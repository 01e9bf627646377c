/** Reading Board messages back: equal bytes come from equal messages, so that no field of any of the
    49 messages is lost on the wire. */
module BoardReading {
  import opened Types
  import opened BoardMessages
  import opened BoardSchema
  import opened W = ProtoWire
  import opened BoardEncoding
  import S = BoardSize

  // Two messages of the same kind.

  predicate QueryKind(m: Board, n: Board) {
    (m.GetBoardInfo? && n.GetBoardInfo?) || (m.ListSensors? && n.ListSensors?)
    || (m.ReadSensor? && n.ReadSensor?) || (m.StopStream? && n.StopStream?)
    || (m.GetCalibration? && n.GetCalibration?) || (m.GetInputState? && n.GetInputState?)
  }

  predicate SetupKind(m: Board, n: Board) {
    (m.ConfigureStream? && n.ConfigureStream?) || (m.Calibrate? && n.Calibrate?)
    || (m.AdcRead? && n.AdcRead?)
  }

  predicate InputSetupKind(m: Board, n: Board) {
    m.ConfigureInput? && n.ConfigureInput?
  }

  predicate OutputKind(m: Board, n: Board) {
    (m.SetOutput? && n.SetOutput?) || (m.GpioConfigure? && n.GpioConfigure?)
  }

  predicate GpioKind(m: Board, n: Board) {
    (m.GpioRead? && n.GpioRead?) || (m.GpioWrite? && n.GpioWrite?)
  }

  predicate TransferKind(m: Board, n: Board) {
    (m.I2cTransfer? && n.I2cTransfer?) || (m.SpiTransfer? && n.SpiTransfer?)
  }

  predicate BusKind(m: Board, n: Board) {
    && IsBus(m) && IsBus(n)
    && (QueryKind(m, n) || SetupKind(m, n) || InputSetupKind(m, n) || OutputKind(m, n) || GpioKind(m, n)
        || TransferKind(m, n))
  }

  predicate ControlKind(m: Board, n: Board) {
    && IsControl(m) && IsControl(n)
    && ((m.StorageInfo? && n.StorageInfo?) || (m.StorageAdopt? && n.StorageAdopt?)
        || (m.StorageReadLog? && n.StorageReadLog?) || (m.StorageEraseLog? && n.StorageEraseLog?)
        || (m.GetRuntimeConfig? && n.GetRuntimeConfig?) || (m.SetRuntimeConfig? && n.SetRuntimeConfig?)
        || (m.SetRuntimeMode? && n.SetRuntimeMode?) || (m.RemoteProfileGet? && n.RemoteProfileGet?)
        || (m.RemoteProfileSet? && n.RemoteProfileSet?) || (m.AudioConfigure? && n.AudioConfigure?)
        || (m.ReleasePin? && n.ReleasePin?) || (m.RawPcmDiagnostics? && n.RawPcmDiagnostics?))
  }

  predicate ReportKind(m: Board, n: Board) {
    && IsReport(m) && IsReport(n)
    && ((m.CommandResult? && n.CommandResult?) || (m.BoardInfo? && n.BoardInfo?)
        || (m.SensorDescriptor? && n.SensorDescriptor?) || (m.SensorSample? && n.SensorSample?)
        || (m.StreamConfigured? && n.StreamConfigured?) || (m.Calibration? && n.Calibration?)
        || (m.InputState? && n.InputState?))
  }

  predicate OutcomeKind(m: Board, n: Board) {
    && IsOutcome(m) && IsOutcome(n)
    && ((m.I2cResult? && n.I2cResult?) || (m.GpioConfigured? && n.GpioConfigured?)
        || (m.GpioValue? && n.GpioValue?) || (m.AdcValue? && n.AdcValue?) || (m.SpiResult? && n.SpiResult?)
        || (m.StorageStatus? && n.StorageStatus?) || (m.RuntimeConfig? && n.RuntimeConfig?)
        || (m.RemoteProfile? && n.RemoteProfile?))
  }

  predicate EventKind(m: Board, n: Board) {
    && IsEvent(m) && IsEvent(n)
    && ((m.AudioConfigured? && n.AudioConfigured?) || (m.AudioChunk? && n.AudioChunk?)
        || (m.InputEvent? && n.InputEvent?) || (m.GestureEvent? && n.GestureEvent?) || (m.LogChunk? && n.LogChunk?)
        || (m.BoardStatus? && n.BoardStatus?))
  }

  predicate SameKind(m: Board, n: Board) {
    BusKind(m, n) || ControlKind(m, n) || ReportKind(m, n) || OutcomeKind(m, n) || EventKind(m, n)
  }

  lemma LeaseTold(a: Option<Lease>, b: Option<Lease>, tag: nat)
    requires ItemsOf(OptionalLease(a), tag) == ItemsOf(OptionalLease(b), tag)
    ensures a == b
  {
    var fs := if a.Some? then LeaseFields(a.value) else Nil;
    var gs := if b.Some? then LeaseFields(b.value) else Nil;
    MessageTold(a.Some?, fs, b.Some?, gs, tag);
    ToldRules();
    hide ItemsOf, Agree;
  }

  lemma QueryTold(m: Board, n: Board)
    requires QueryKind(m, n)
    requires Agree(BusFields(m), BusFields(n), 1)
    ensures m == n
  {
    ToldRules();
    hide ItemsOf, Agree;
  }

  lemma SetupTold(m: Board, n: Board)
    requires SetupKind(m, n)
    requires Agree(BusFields(m), BusFields(n), 1)
    ensures m == n
  {
    ToldRules();
    hide ItemsOf, Agree;
  }

  lemma InputSetupTold(m: Board, n: Board)
    requires InputSetupKind(m, n)
    requires Agree(BusFields(m), BusFields(n), 1)
    ensures m == n
  {
    ToldRules();
    hide ItemsOf, Agree;
  }

  lemma OutputTold(m: Board, n: Board)
    requires OutputKind(m, n)
    requires Agree(BusFields(m), BusFields(n), 1)
    ensures m == n
  {
    ToldRules();
    hide ItemsOf, Agree, OptionalLease;
    LeaseTold(m.lease, n.lease, 6);
  }

  lemma GpioTold(m: Board, n: Board)
    requires GpioKind(m, n)
    requires Agree(BusFields(m), BusFields(n), 1)
    ensures m == n
  {
    ToldRules();
    hide ItemsOf, Agree, OptionalLease;
    LeaseTold(m.lease, n.lease, 3);
  }

  lemma TransferTold(m: Board, n: Board)
    requires TransferKind(m, n)
    requires Agree(BusFields(m), BusFields(n), 1)
    ensures m == n
  {
    ToldRules();
    hide ItemsOf, Agree, OptionalLease;
    LeaseTold(m.lease, n.lease, 7);
  }

  lemma SettingTold(m: Board, n: Board)
    requires (m.StorageInfo? && n.StorageInfo?) || (m.StorageAdopt? && n.StorageAdopt?)
    || (m.StorageReadLog? && n.StorageReadLog?) || (m.StorageEraseLog? && n.StorageEraseLog?)
    || (m.GetRuntimeConfig? && n.GetRuntimeConfig?) || (m.SetRuntimeMode? && n.SetRuntimeMode?)
    || (m.RemoteProfileGet? && n.RemoteProfileGet?) || (m.AudioConfigure? && n.AudioConfigure?)
    || (m.RawPcmDiagnostics? && n.RawPcmDiagnostics?)
    requires Agree(ControlFields(m), ControlFields(n), 1)
    ensures m == n
  {
    ToldRules();
    hide ItemsOf, Agree;
  }

  lemma ReleaseTold(m: Board, n: Board)
    requires (m.ReleasePin? && n.ReleasePin?)
    requires Agree(ControlFields(m), ControlFields(n), 1)
    ensures m == n
  {
    ToldRules();
    hide ItemsOf, Agree, OptionalLease;
    LeaseTold(m.lease, n.lease, 1);
  }

  lemma ReportTold(m: Board, n: Board)
    requires (m.StreamConfigured? && n.StreamConfigured?) || (m.Calibration? && n.Calibration?)
    || (m.InputState? && n.InputState?)
    requires Agree(ReportFields(m), ReportFields(n), 1)
    ensures m == n
  {
    ToldRules();
    hide ItemsOf, Agree;
  }

  lemma SampleTold(m: Board, n: Board)
    requires (m.SensorSample? && n.SensorSample?)
    requires Agree(ReportFields(m), ReportFields(n), 1)
    ensures m == n
  {
    ToldRules();
    hide ItemsOf, Agree;
  }

  lemma ResultTold(m: Board, n: Board)
    requires (m.I2cResult? && n.I2cResult?) || (m.GpioConfigured? && n.GpioConfigured?)
    || (m.SpiResult? && n.SpiResult?)
    requires Agree(OutcomeFields(m), OutcomeFields(n), 1)
    ensures m == n
  {
    ToldRules();
    hide ItemsOf, Agree, OptionalLease;
    LeaseTold(m.lease, n.lease, 3);
  }

  lemma GpioValueTold(m: Board, n: Board)
    requires (m.GpioValue? && n.GpioValue?)
    requires Agree(OutcomeFields(m), OutcomeFields(n), 1)
    ensures m == n
  {
    ToldRules();
    hide ItemsOf, Agree, OptionalLease;
    LeaseTold(m.lease, n.lease, 4);
  }

  lemma OutcomeTold(m: Board, n: Board)
    requires (m.AdcValue? && n.AdcValue?) || (m.StorageStatus? && n.StorageStatus?)
    || (m.RuntimeConfig? && n.RuntimeConfig?)
    requires Agree(OutcomeFields(m), OutcomeFields(n), 1)
    ensures m == n
  {
    ToldRules();
    hide ItemsOf, Agree;
  }

  lemma EventTold(m: Board, n: Board)
    requires (m.AudioConfigured? && n.AudioConfigured?) || (m.AudioChunk? && n.AudioChunk?)
    || (m.InputEvent? && n.InputEvent?)
    requires Agree(EventFields(m), EventFields(n), 1)
    ensures m == n
  {
    ToldRules();
    hide ItemsOf, Agree;
  }

  lemma LastEventTold(m: Board, n: Board)
    requires (m.GestureEvent? && n.GestureEvent?) || (m.LogChunk? && n.LogChunk?)
    requires Agree(EventFields(m), EventFields(n), 1)
    ensures m == n
  {
    ToldRules();
    hide ItemsOf, Agree;
  }


  /** Characters behind the terminator are not transmitted; in a canonical array they are zero. */
  ghost predicate Padded(chars: seq<byte>) {
    forall i | Length(chars) <= i < |chars| :: chars[i] == 0
  }

  lemma PaddedTold(a: seq<byte>, b: seq<byte>, tag: nat)
    requires |a| == |b| && Padded(a) && Padded(b)
    requires ItemsOf(W.Text(a), tag) == ItemsOf(W.Text(b), tag)
    ensures a == b
  {
    TextTold(a, b, tag);
    hide ItemsOf, Length;
    var n := Length(a);
    assert n == |a[..n]| == |b[..Length(b)]| == Length(b);
    forall i | 0 <= i < |a|
      ensures a[i] == b[i]
    {
      assert i < n ==> a[i] == a[..n][i] && b[i] == b[..n][i];
    }
  }

  lemma EmptyPadded(a: seq<byte>, b: seq<byte>)
    requires |a| == |b| && Padded(a) && Padded(b) && Length(a) == Length(b) == 0
    ensures a == b
  {
  }

  lemma MappingTold(a: Mapping, b: Mapping)
    requires Contents(MappingField(a)) == Contents(MappingField(b))
    ensures a == b
  {
    BodyTold(MappingField(a).fields, MappingField(b).fields);
    ToldRules();
    hide ItemsOf, Agree;
  }

  lemma {:induction false} MappingsTold(a: seq<Mapping>, b: seq<Mapping>, tag: nat)
    requires Elements(MappingList(a), tag) == Elements(MappingList(b), tag)
    ensures a == b
  {
    hide MappingField, Contents;
    if a != [] && b != [] {
      assert Elements(MappingList(a), tag)[0] == Elements(MappingList(b), tag)[0];
      assert Elements(MappingList(a), tag)[1..] == Elements(MappingList(b), tag)[1..];
      MappingTold(a[0], b[0]);
      MappingsTold(a[1..], b[1..], tag);
      assert a == [a[0]] + a[1..] && b == [b[0]] + b[1..];
    }
  }

  /** Mappings beyond the count are not transmitted; in a canonical profile they are zero. */
  ghost predicate CanonicalProfile(p: Profile) {
    Padded(p.name) && p.count <= 16 && forall i | p.count <= i < 16 :: p.mappings[i] == Mapping(0, 0, 0, 0, 0)
  }

  lemma MappingListTold(p: Profile, q: Profile)
    requires CanonicalProfile(p) && CanonicalProfile(q)
    requires Elements(MappingList(p.mappings[..p.count]), 7) == Elements(MappingList(q.mappings[..q.count]), 7)
    ensures p.count == q.count && p.mappings == q.mappings
  {
    var ps, qs := p.mappings[..p.count], q.mappings[..q.count];
    hide Padded, MappingList, Elements;
    MappingsTold(ps, qs, 7);
    assert |ps| == |qs|;
    forall i | 0 <= i < 16
      ensures p.mappings[i] == q.mappings[i]
    {
      assert i < p.count ==> p.mappings[i] == ps[i] && q.mappings[i] == qs[i];
    }
  }

  lemma RepeatedItems(n: nat, capacity: nat, fs: Fields, tag: nat)
    ensures ItemsOf(Repeated(n, capacity, fs), tag) == Elements(fs, tag)
  {
  }

  lemma ProfileTold(p: Profile, q: Profile)
    requires CanonicalProfile(p) && CanonicalProfile(q)
    requires Agree(ProfileFields(p), ProfileFields(q), 1)
    ensures p == q
  {
    var ps, qs := MappingList(p.mappings[..p.count]), MappingList(q.mappings[..q.count]);
    assert p.count <= 16 && q.count <= 16 && Padded(p.name) && Padded(q.name);
    ToldRules();
    RepeatedItems(p.count, 16, ps, 7);
    RepeatedItems(q.count, 16, qs, 7);
    hide ItemsOf, Agree, MappingList, Elements, Padded, CanonicalProfile;
    MappingListTold(p, q);
    PaddedTold(p.name, q.name, 2);
  }

  lemma {:induction false} NamesTold(a: seq<Chars16>, b: seq<Chars16>, tag: nat)
    requires forall i | 0 <= i < |a| :: Padded(a[i])
    requires forall i | 0 <= i < |b| :: Padded(b[i])
    requires Elements(NameList(a), tag) == Elements(NameList(b), tag)
    ensures a == b
  {
    if a != [] && b != [] {
      assert Elements(NameList(a), tag)[0] == Elements(NameList(b), tag)[0];
      assert Elements(NameList(a), tag)[1..] == Elements(NameList(b), tag)[1..];
      assert ItemsOf(W.Text(a[0]), tag) == ItemsOf(W.Text(b[0]), tag);
      PaddedTold(a[0], b[0], tag);
      hide Padded, Length;
      NamesTold(a[1..], b[1..], tag);
      assert a == [a[0]] + a[1..] && b == [b[0]] + b[1..];
    }
  }

  /** Names and rates beyond their counts likewise. */
  ghost predicate CanonicalDescriptor(d: Descriptor) {
    && Padded(d.name) && Padded(d.unit) && d.nameCount <= 10 && d.rateCount <= 8
    && (forall i | 0 <= i < 10 :: Padded(d.names[i]))
    && (forall i | d.nameCount <= i < 10 :: Length(d.names[i]) == 0)
    && (forall i | d.rateCount <= i < 8 :: d.rates[i] == 0)
  }

  lemma NameListTold(d: Descriptor, e: Descriptor)
    requires CanonicalDescriptor(d) && CanonicalDescriptor(e)
    requires Elements(NameList(d.names[..d.nameCount]), 5) == Elements(NameList(e.names[..e.nameCount]), 5)
    ensures d.nameCount == e.nameCount && d.names == e.names
  {
    var ds, es := d.names[..d.nameCount], e.names[..e.nameCount];
    hide Padded, NameList, Elements;
    NamesTold(ds, es, 5);
    assert |ds| == |es|;
    forall i | 0 <= i < 10
      ensures d.names[i] == e.names[i]
    {
      if i < d.nameCount {
        assert d.names[i] == ds[i] && e.names[i] == es[i];
      } else {
        EmptyPadded(d.names[i], e.names[i]);
      }
    }
  }

  lemma RateListTold(d: Descriptor, e: Descriptor)
    requires CanonicalDescriptor(d) && CanonicalDescriptor(e)
    requires ItemsOf(Packed(d.rateCount, 8, d.rates[..d.rateCount]), 9)
          == ItemsOf(Packed(e.rateCount, 8, e.rates[..e.rateCount]), 9)
    ensures d.rateCount == e.rateCount && d.rates == e.rates
  {
    var ds, es := d.rates[..d.rateCount], e.rates[..e.rateCount];
    hide Padded;
    PackedTold(d.rateCount, ds, e.rateCount, es, 8, 9);
    assert |ds| == |es|;
    forall i | 0 <= i < 8
      ensures d.rates[i] == e.rates[i]
    {
      assert i < d.rateCount ==> d.rates[i] == ds[i] && e.rates[i] == es[i];
    }
  }

  lemma DescriptorTold(d: Descriptor, e: Descriptor)
    requires CanonicalDescriptor(d) && CanonicalDescriptor(e)
    requires Agree(DescriptorFields(d), DescriptorFields(e), 1)
    ensures d == e
  {
    var ds, es := NameList(d.names[..d.nameCount]), NameList(e.names[..e.nameCount]);
    assert d.nameCount <= 10 && e.nameCount <= 10 && d.rateCount <= 8 && e.rateCount <= 8;
    assert Padded(d.name) && Padded(d.unit) && Padded(e.name) && Padded(e.unit);
    ToldRules();
    RepeatedItems(d.nameCount, 10, ds, 5);
    RepeatedItems(e.nameCount, 10, es, 5);
    hide ItemsOf, Agree, NameList, Elements, Padded, CanonicalDescriptor;
    NameListTold(d, e);
    RateListTold(d, e);
    PaddedTold(d.name, e.name, 2);
    PaddedTold(d.unit, e.unit, 3);
  }

  lemma OptionalProfileTold(a: Option<Profile>, b: Option<Profile>, tag: nat)
    requires a.Some? ==> CanonicalProfile(a.value)
    requires b.Some? ==> CanonicalProfile(b.value)
    requires ItemsOf(OptionalProfile(a), tag) == ItemsOf(OptionalProfile(b), tag)
    ensures a == b
  {
    var fs := if a.Some? then ProfileFields(a.value) else Nil;
    var gs := if b.Some? then ProfileFields(b.value) else Nil;
    MessageTold(a.Some?, fs, b.Some?, gs, tag);
    hide ItemsOf, Agree, ProfileFields, CanonicalProfile;
    if a.Some? {
      ProfileTold(a.value, b.value);
    }
  }

  lemma OptionalDescriptorTold(a: Option<Descriptor>, b: Option<Descriptor>, tag: nat)
    requires a.Some? ==> CanonicalDescriptor(a.value)
    requires b.Some? ==> CanonicalDescriptor(b.value)
    requires ItemsOf(OptionalDescriptor(a), tag) == ItemsOf(OptionalDescriptor(b), tag)
    ensures a == b
  {
    var fs := if a.Some? then DescriptorFields(a.value) else Nil;
    var gs := if b.Some? then DescriptorFields(b.value) else Nil;
    MessageTold(a.Some?, fs, b.Some?, gs, tag);
    hide ItemsOf, Agree, DescriptorFields, CanonicalDescriptor;
    if a.Some? {
      DescriptorTold(a.value, b.value);
    }
  }

  lemma NatTold(a: Option<u32>, b: Option<u32>)
    requires Nat(a) == Nat(b)
    ensures a == b
  {
  }

  function UpdateFields(o: Operation): Fields {
    if o.Update?
    then Of3(OptionalEnum(Nat(o.persisted), 2), Optional(Nat(o.eventFilter)), Optional(Nat(o.packetFilter)))
    else Nil
  }

  function SingleFields(o: Operation, opens: bool): Fields {
    if opens && o.OpenPairingWindow? then Of1(Number(o.duration))
    else if !opens && o.ClearBonds? then Of1(Number(o.nonce))
    else Nil
  }

  lemma OperationParts(o: Operation)
    ensures OperationFields(o) == Of3(Message(o.Update?, UpdateFields(o)),
                                      Message(o.OpenPairingWindow?, SingleFields(o, true)),
                                      Message(o.ClearBonds?, SingleFields(o, false)))
  {
  }

  lemma OperationTold(a: Operation, b: Operation)
    requires Agree(OperationFields(a), OperationFields(b), 1)
    ensures a == b
  {
    OperationParts(a);
    OperationParts(b);
    ToldRules();
    hide ItemsOf, Agree, Nat, OperationFields;
    MessageTold(a.Update?, UpdateFields(a), b.Update?, UpdateFields(b), 1);
    MessageTold(a.OpenPairingWindow?, SingleFields(a, true), b.OpenPairingWindow?, SingleFields(b, true), 2);
    MessageTold(a.ClearBonds?, SingleFields(a, false), b.ClearBonds?, SingleFields(b, false), 3);
    if a.Update? {
      NatTold(a.persisted, b.persisted);
      NatTold(a.eventFilter, b.eventFilter);
      NatTold(a.packetFilter, b.packetFilter);
    }
  }

  /** Nothing but what is transmitted: zeros behind terminators and beyond counts. */
  ghost predicate Canonical(m: Board) {
    match m
    case CommandResult(_, _, _, detail) => Padded(detail)
    case BoardInfo(name, hardware, firmware, variant, _, _, _) =>
      Padded(name) && Padded(hardware) && Padded(firmware) && Padded(variant)
    case SensorDescriptor(descriptor, _, _) => descriptor.Some? ==> CanonicalDescriptor(descriptor.value)
    case RemoteProfileSet(profile, _) => profile.Some? ==> CanonicalProfile(profile.value)
    case RemoteProfile(profile) => profile.Some? ==> CanonicalProfile(profile.value)
    case BoardStatus(_, _, _, _, _, _, _, detail) => Padded(detail)
    case _ => true
  }

  lemma TextsTold(m: Board, n: Board)
    requires (m.CommandResult? && n.CommandResult?) || (m.BoardInfo? && n.BoardInfo?)
    requires Canonical(m) && Canonical(n)
    requires Agree(ReportFields(m), ReportFields(n), 1)
    ensures m == n
  {
    ToldRules();
    hide ItemsOf, Agree, Padded;
    if m.CommandResult? {
      PaddedTold(m.detail, n.detail, 4);
    } else {
      PaddedTold(m.name, n.name, 1);
      PaddedTold(m.hardware, n.hardware, 2);
      PaddedTold(m.firmware, n.firmware, 3);
      PaddedTold(m.variant, n.variant, 4);
    }
  }

  lemma StatusTold(m: Board, n: Board)
    requires m.BoardStatus? && n.BoardStatus?
    requires Canonical(m) && Canonical(n)
    requires Agree(EventFields(m), EventFields(n), 1)
    ensures m == n
  {
    ToldRules();
    hide ItemsOf, Agree, Padded;
    PaddedTold(m.detail, n.detail, 8);
  }

  lemma DescriptorAnswerTold(m: Board, n: Board)
    requires m.SensorDescriptor? && n.SensorDescriptor?
    requires Canonical(m) && Canonical(n)
    requires Agree(ReportFields(m), ReportFields(n), 1)
    ensures m == n
  {
    ToldRules();
    hide ItemsOf, Agree, OptionalDescriptor, CanonicalDescriptor;
    OptionalDescriptorTold(m.descriptor, n.descriptor, 1);
  }

  lemma ProfileAnswerTold(m: Board, n: Board)
    requires m.RemoteProfile? && n.RemoteProfile?
    requires Canonical(m) && Canonical(n)
    requires Agree(OutcomeFields(m), OutcomeFields(n), 1)
    ensures m == n
  {
    ToldRules();
    hide ItemsOf, Agree, OptionalProfile, CanonicalProfile;
    OptionalProfileTold(m.profile, n.profile, 1);
  }

  lemma NestedSettingTold(m: Board, n: Board)
    requires (m.RemoteProfileSet? && n.RemoteProfileSet?) || (m.SetRuntimeConfig? && n.SetRuntimeConfig?)
    requires Canonical(m) && Canonical(n)
    requires Agree(ControlFields(m), ControlFields(n), 1)
    ensures m == n
  {
    ToldRules();
    hide ItemsOf, Agree, OptionalProfile, CanonicalProfile, OperationFields;
    if m.RemoteProfileSet? {
      OptionalProfileTold(m.profile, n.profile, 1);
    } else {
      OperationTold(m.operation, n.operation);
    }
  }

  /** The table of a message is that of its group. */
  lemma GroupFields(m: Board)
    ensures IsBus(m) ==> FieldsOf(m) == BusFields(m)
    ensures IsControl(m) ==> FieldsOf(m) == ControlFields(m)
    ensures IsReport(m) ==> FieldsOf(m) == ReportFields(m)
    ensures IsOutcome(m) ==> FieldsOf(m) == OutcomeFields(m)
    ensures IsEvent(m) ==> FieldsOf(m) == EventFields(m)
  {
    hide BusFields, ControlFields, ReportFields, OutcomeFields, EventFields;
    hide IsBus, IsControl, IsReport, IsOutcome, IsEvent;
  }

  lemma BusWireAgrees(m: Board, n: Board)
    requires BusKind(m, n) && Wire(m) == Wire(n)
    ensures Agree(BusFields(m), BusFields(n), 1)
  {
    hide QueryKind, SetupKind, InputSetupKind, OutputKind, GpioKind, TransferKind;
    hide FieldsOf, BusFields, IsBus, Encode, Items, Agree;
    GroupFields(m);
    GroupFields(n);
    BodyTold(FieldsOf(m), FieldsOf(n));
  }

  lemma BusTold(m: Board, n: Board)
    requires BusKind(m, n) && Canonical(m) && Canonical(n)
    requires Wire(m) == Wire(n)
    ensures m == n
  {
    BusWireAgrees(m, n);
    hide BusFields, Agree, Canonical, Wire;
    hide QueryKind, SetupKind, InputSetupKind, OutputKind, GpioKind, TransferKind;
    if QueryKind(m, n) {
      QueryTold(m, n);
    } else if SetupKind(m, n) {
      SetupTold(m, n);
    } else if InputSetupKind(m, n) {
      InputSetupTold(m, n);
    } else if OutputKind(m, n) {
      OutputTold(m, n);
    } else if GpioKind(m, n) {
      GpioTold(m, n);
    } else {
      TransferTold(m, n);
    }
  }

  lemma ControlWireAgrees(m: Board, n: Board)
    requires ControlKind(m, n) && Wire(m) == Wire(n)
    ensures Agree(ControlFields(m), ControlFields(n), 1)
  {
    hide FieldsOf, ControlFields, IsControl, Encode, Items, Agree;
    GroupFields(m);
    GroupFields(n);
    BodyTold(FieldsOf(m), FieldsOf(n));
  }

  lemma ControlTold(m: Board, n: Board)
    requires ControlKind(m, n) && Canonical(m) && Canonical(n)
    requires Wire(m) == Wire(n)
    ensures m == n
  {
    ControlWireAgrees(m, n);
    hide ControlFields, Agree, Canonical, Wire;
    if m.ReleasePin? {
      ReleaseTold(m, n);
    } else if m.RemoteProfileSet? || m.SetRuntimeConfig? {
      NestedSettingTold(m, n);
    } else {
      SettingTold(m, n);
    }
  }

  lemma ReportWireAgrees(m: Board, n: Board)
    requires ReportKind(m, n) && Wire(m) == Wire(n)
    ensures Agree(ReportFields(m), ReportFields(n), 1)
  {
    hide FieldsOf, ReportFields, IsReport, Encode, Items, Agree;
    GroupFields(m);
    GroupFields(n);
    BodyTold(FieldsOf(m), FieldsOf(n));
  }

  lemma AnswerTold(m: Board, n: Board)
    requires ReportKind(m, n) && Canonical(m) && Canonical(n)
    requires Wire(m) == Wire(n)
    ensures m == n
  {
    ReportWireAgrees(m, n);
    hide ReportFields, Agree, Canonical, Wire;
    if m.CommandResult? || m.BoardInfo? {
      TextsTold(m, n);
    } else if m.SensorDescriptor? {
      DescriptorAnswerTold(m, n);
    } else if m.SensorSample? {
      SampleTold(m, n);
    } else {
      ReportTold(m, n);
    }
  }

  lemma OutcomeWireAgrees(m: Board, n: Board)
    requires OutcomeKind(m, n) && Wire(m) == Wire(n)
    ensures Agree(OutcomeFields(m), OutcomeFields(n), 1)
  {
    hide FieldsOf, OutcomeFields, IsOutcome, Encode, Items, Agree;
    GroupFields(m);
    GroupFields(n);
    BodyTold(FieldsOf(m), FieldsOf(n));
  }

  lemma OutcomeGroupTold(m: Board, n: Board)
    requires OutcomeKind(m, n) && Canonical(m) && Canonical(n)
    requires Wire(m) == Wire(n)
    ensures m == n
  {
    OutcomeWireAgrees(m, n);
    hide OutcomeFields, Agree, Canonical, Wire;
    if m.RemoteProfile? {
      ProfileAnswerTold(m, n);
    } else if m.GpioValue? {
      GpioValueTold(m, n);
    } else if m.I2cResult? || m.GpioConfigured? || m.SpiResult? {
      ResultTold(m, n);
    } else {
      OutcomeTold(m, n);
    }
  }

  lemma EventWireAgrees(m: Board, n: Board)
    requires EventKind(m, n) && Wire(m) == Wire(n)
    ensures Agree(EventFields(m), EventFields(n), 1)
  {
    hide FieldsOf, EventFields, IsEvent, Encode, Items, Agree;
    GroupFields(m);
    GroupFields(n);
    BodyTold(FieldsOf(m), FieldsOf(n));
  }

  lemma EventGroupTold(m: Board, n: Board)
    requires EventKind(m, n) && Canonical(m) && Canonical(n)
    requires Wire(m) == Wire(n)
    ensures m == n
  {
    EventWireAgrees(m, n);
    hide EventFields, Agree, Canonical, Wire;
    if m.BoardStatus? {
      StatusTold(m, n);
    } else if m.GestureEvent? || m.LogChunk? {
      LastEventTold(m, n);
    } else {
      EventTold(m, n);
    }
  }

  /** Equal bytes come from equal messages: no field of any message is lost on the wire. */
  lemma WireTells(m: Board, n: Board)
    requires SameKind(m, n) && Canonical(m) && Canonical(n)
    requires Wire(m) == Wire(n)
    ensures m == n
  {
    hide Canonical, Wire, BusKind, ControlKind, ReportKind, OutcomeKind, EventKind;
    if BusKind(m, n) {
      BusTold(m, n);
    } else if ControlKind(m, n) {
      ControlTold(m, n);
    } else if ReportKind(m, n) {
      AnswerTold(m, n);
    } else if OutcomeKind(m, n) {
      OutcomeGroupTold(m, n);
    } else {
      EventGroupTold(m, n);
    }
  }

  lemma BusTag(m: Board, n: Board)
    requires IsBus(m) && S.TagOf(m) == S.TagOf(n)
    ensures BusKind(m, n)
  {
    S.TagIdentifies(n);
    var tag := S.TagOf(m);
    assert S.StandsFor(tag, n);
  }

  lemma ControlTag(m: Board, n: Board)
    requires IsControl(m) && S.TagOf(m) == S.TagOf(n)
    ensures ControlKind(m, n)
  {
    S.TagIdentifies(n);
    var tag := S.TagOf(m);
    assert S.StandsFor(tag, n);
  }

  lemma ReportTag(m: Board, n: Board)
    requires IsReport(m) && S.TagOf(m) == S.TagOf(n)
    ensures ReportKind(m, n)
  {
    S.TagIdentifies(n);
    var tag := S.TagOf(m);
    assert S.StandsFor(tag, n);
  }

  lemma OutcomeTag(m: Board, n: Board)
    requires IsOutcome(m) && S.TagOf(m) == S.TagOf(n)
    ensures OutcomeKind(m, n)
  {
    S.TagIdentifies(n);
    var tag := S.TagOf(m);
    assert S.StandsFor(tag, n);
  }

  lemma EventTag(m: Board, n: Board)
    requires IsEvent(m) && S.TagOf(m) == S.TagOf(n)
    ensures EventKind(m, n)
  {
    S.TagIdentifies(n);
    var tag := S.TagOf(m);
    assert S.StandsFor(tag, n);
  }

  lemma SomeGroup(m: Board)
    ensures IsBus(m) || IsControl(m) || IsReport(m) || IsOutcome(m) || IsEvent(m)
  {
  }

  lemma TagIsKind(m: Board, n: Board)
    requires S.TagOf(m) == S.TagOf(n)
    ensures SameKind(m, n)
  {
    SomeGroup(m);
    hide IsBus, IsControl, IsReport, IsOutcome, IsEvent, S.TagOf;
    hide BusKind, ControlKind, ReportKind, OutcomeKind, EventKind;
    if IsBus(m) {
      BusTag(m, n);
    } else if IsControl(m) {
      ControlTag(m, n);
    } else if IsReport(m) {
      ReportTag(m, n);
    } else if IsOutcome(m) {
      OutcomeTag(m, n);
    } else {
      EventTag(m, n);
    }
  }

  /** Every message on the wire comes from one request id and one value only. */
  lemma TopWireTells(requestId: u32, m: Board, otherId: u32, n: Board)
    requires Canonical(m) && Canonical(n)
    requires TopWire(requestId, m) == TopWire(otherId, n)
    ensures requestId == otherId && m == n
  {
    var a, b := BoardItems(requestId, m), BoardItems(otherId, n);
    DecodeEncode([Data(8, Encode(a))]);
    DecodeEncode([Data(8, Encode(b))]);
    assert [Data(8, Encode(a))][0] == [Data(8, Encode(b))][0];
    DecodeEncode(a);
    DecodeEncode(b);
    ToldRules();
    hide Encode, Decode, Canonical, Wire, S.TagOf, Agree;
    assert a[|a| - 1] == b[|b| - 1];
    assert a[..|a| - 1] == ItemsOf(Number(requestId), 1) && b[..|b| - 1] == ItemsOf(Number(otherId), 1);
    TagIsKind(m, n);
    hide SameKind, ItemsOf;
    WireTells(m, n);
  }
}

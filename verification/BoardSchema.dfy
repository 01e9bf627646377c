/** The 49 Board messages as the generated header declares them: every field in order with its type,
    its largest enumerator or its capacity. The validators, the encoded sizes and the encoding itself
    are compared with this table. */
module BoardSchema {
  import opened Types
  import opened BoardMessages
  import opened W = ProtoWire

  // Lists of up to nine fields.

  function Of1(a: Field): (fs: Fields)
    ensures Count(fs) == 1
  {
    Cons(a, Nil)
  }

  function Of2(a: Field, b: Field): (fs: Fields)
    ensures Count(fs) == 2
  {
    Cons(a, Of1(b))
  }

  function Of3(a: Field, b: Field, c: Field): (fs: Fields)
    ensures Count(fs) == 3
  {
    Cons(a, Of2(b, c))
  }

  function Of4(a: Field, b: Field, c: Field, d: Field): (fs: Fields)
    ensures Count(fs) == 4
  {
    Cons(a, Of3(b, c, d))
  }

  function Of5(a: Field, b: Field, c: Field, d: Field, e: Field): (fs: Fields)
    ensures Count(fs) == 5
  {
    Cons(a, Of4(b, c, d, e))
  }

  function Of6(a: Field, b: Field, c: Field, d: Field, e: Field, f: Field): (fs: Fields)
    ensures Count(fs) == 6
  {
    Cons(a, Of5(b, c, d, e, f))
  }

  function Of7(a: Field, b: Field, c: Field, d: Field, e: Field, f: Field, g: Field): (fs: Fields)
    ensures Count(fs) == 7
  {
    Cons(a, Of6(b, c, d, e, f, g))
  }

  function Of8(a: Field, b: Field, c: Field, d: Field, e: Field, f: Field, g: Field, h: Field): (fs: Fields)
    ensures Count(fs) == 8
  {
    Cons(a, Of7(b, c, d, e, f, g, h))
  }

  function Of9(a: Field, b: Field, c: Field, d: Field, e: Field, f: Field, g: Field, h: Field, i: Field): (fs: Fields)
    ensures Count(fs) == 9
  {
    Cons(a, Of8(b, c, d, e, f, g, h, i))
  }

  function LeaseFields(l: Lease): Fields {
    Of4(Enum(l.resource, 6), Number(l.instance), Number(l.generation), Number(l.owner))
  }

  function OptionalLease(lease: Option<Lease>): Field {
    if lease.Some? then Message(true, LeaseFields(lease.value)) else Message(false, Nil)
  }

  function MappingField(m: Mapping): Field {
    Message(true, Of5(Enum(m.source, 5), Enum(m.action, 4), Number(m.usagePage), Number(m.usage), Signed(m.value)))
  }

  function MappingList(ms: seq<Mapping>): Fields {
    if ms == [] then Nil else Cons(MappingField(ms[0]), MappingList(ms[1..]))
  }

  function ProfileFields(p: Profile): Fields {
    Of7(Number(p.profileId), W.Text(p.name), Number(p.sensitivity), Number(p.deadzone), Flag(p.pointerMode),
        Flag(p.tiltMode), Repeated(p.count, 16, MappingList(p.mappings[..Min(p.count, 16)])))
  }

  function OptionalProfile(profile: Option<Profile>): Field {
    if profile.Some? then Message(true, ProfileFields(profile.value)) else Message(false, Nil)
  }

  function NameList(names: seq<Chars16>): Fields {
    if names == [] then Nil else Cons(W.Text(names[0]), NameList(names[1..]))
  }

  function DescriptorFields(d: Descriptor): Fields {
    Of9(Number(d.sensorId), W.Text(d.name), W.Text(d.unit), Number(d.valueCount),
        Repeated(d.nameCount, 10, NameList(d.names[..Min(d.nameCount, 10)])),
        Number(d.defaultRate), Number(d.minRate), Number(d.maxRate),
        Packed(d.rateCount, 8, d.rates[..Min(d.rateCount, 8)]))
  }

  function OptionalDescriptor(descriptor: Option<Descriptor>): Field {
    if descriptor.Some? then Message(true, DescriptorFields(descriptor.value)) else Message(false, Nil)
  }

  function Nat(o: Option<u32>): Option<nat> {
    if o.Some? then Some(o.value) else None
  }

  /** The three messages of the operation union, of which at most one is present. */
  function OperationFields(operation: Operation): Fields {
    match operation
    case Update(persisted, eventFilter, packetFilter) =>
      var fs := Of3(OptionalEnum(Nat(persisted), 2), Optional(Nat(eventFilter)), Optional(Nat(packetFilter)));
      Of3(Message(true, fs), Message(false, Nil), Message(false, Nil))
    case OpenPairingWindow(duration) =>
      Of3(Message(false, Nil), Message(true, Of1(Number(duration))), Message(false, Nil))
    case ClearBonds(nonce) =>
      Of3(Message(false, Nil), Message(false, Nil), Message(true, Of1(Number(nonce))))
    case NoOperation =>
      Of3(Message(false, Nil), Message(false, Nil), Message(false, Nil))
  }

  function BusFields(m: Board): Fields {
    match m
    case GetBoardInfo => Nil
    case ListSensors(cursor) => Of1(Number(cursor))
    case ReadSensor(sensorId) => Of1(Number(sensorId))
    case ConfigureStream(sensorId, rate, flags) => Of3(Number(sensorId), Number(rate), Number(flags))
    case StopStream(sensorId) => Of1(Number(sensorId))
    case Calibrate(sensorId, flags, persist) => Of3(Number(sensorId), Number(flags), Flag(persist))
    case GetCalibration(sensorId) => Of1(Number(sensorId))
    case SetOutput(target, level, duration, stop, force, lease) =>
      Of6(Enum(target, 5), Number(level), Number(duration), Flag(stop), Flag(force), OptionalLease(lease))
    case GetInputState => Nil
    case ConfigureInput(mode, flags, dwell, deadzone, persist) =>
      Of5(Enum(mode, 4), Number(flags), Number(dwell), Number(deadzone), Flag(persist))
    case I2cTransfer(address, writeSize, readLength, repeatedStart, frequency, force, lease) =>
      Of7(Number(address), W.Bytes(writeSize, 512), Number(readLength), Flag(repeatedStart), Number(frequency),
          Flag(force), OptionalLease(lease))
    case GpioConfigure(pin, direction, pull, initial, force, lease) =>
      Of6(Number(pin), Enum(direction, 2), Enum(pull, 3), Flag(initial), Flag(force), OptionalLease(lease))
    case GpioRead(pin, force, lease) => Of3(Number(pin), Flag(force), OptionalLease(lease))
    case GpioWrite(pin, high, lease) => Of3(Number(pin), Flag(high), OptionalLease(lease))
    case AdcRead(channel, samples) => Of2(Number(channel), Number(samples))
    case SpiTransfer(csPin, frequency, mode, txSize, readLength, force, lease) =>
      Of7(Number(csPin), Number(frequency), Enum(mode, 4), W.Bytes(txSize, 512), Number(readLength), Flag(force),
          OptionalLease(lease))
    case _ => Nil
  }

  function ControlFields(m: Board): Fields {
    match m
    case StorageInfo => Nil
    case StorageAdopt(nonce, force) => Of2(Number(nonce), Flag(force))
    case StorageReadLog(cursor, maxBytes) => Of2(Number(cursor), Number(maxBytes))
    case StorageEraseLog(nonce) => Of1(Number(nonce))
    case GetRuntimeConfig => Nil
    case SetRuntimeConfig(operation) => OperationFields(operation)
    case SetRuntimeMode(runtime, persist, reboot) => Of3(Enum(runtime, 2), Flag(persist), Flag(reboot))
    case RemoteProfileGet(profileId) => Of1(Number(profileId))
    case RemoteProfileSet(profile, persist) => Of2(OptionalProfile(profile), Flag(persist))
    case AudioConfigure(on, rate, gain, flags) => Of4(Flag(on), Number(rate), Signed(gain), Number(flags))
    case ReleasePin(lease, resource, instance) => Of3(OptionalLease(lease), Enum(resource, 6), Number(instance))
    case RawPcmDiagnostics(duration, chunkSize) => Of2(Number(duration), Number(chunkSize))
    case _ => Nil
  }

  function ReportFields(m: Board): Fields {
    match m
    case CommandResult(command, result, terminal, detail) =>
      Of4(Enum(command, 27), Enum(result, 14), Flag(terminal), W.Text(detail))
    case BoardInfo(name, hardware, firmware, variant, idSize, runtime, sensors) =>
      Of7(W.Text(name), W.Text(hardware), W.Text(firmware), W.Text(variant), W.Bytes(idSize, 16),
          Enum(runtime, 2), Number(sensors))
    case SensorDescriptor(descriptor, nextCursor, eof) =>
      Of3(OptionalDescriptor(descriptor), Number(nextCursor), Flag(eof))
    case SensorSample(sensorId, sequence, timestamp, status, valueCount) =>
      Of5(Number(sensorId), Number(sequence), Number(timestamp), Number(status), W.Bytes(4 * valueCount, 40))
    case StreamConfigured(sensorId, rate, flags) => Of3(Number(sensorId), Number(rate), Number(flags))
    case Calibration(sensorId, version, dataSize, persisted, crc) =>
      Of5(Number(sensorId), Number(version), W.Bytes(dataSize, 128), Flag(persisted), Number(crc))
    case InputState(sequence, timestamp, buttons, gesture, microphone, mode) =>
      Of6(Number(sequence), Number(timestamp), Number(buttons), Enum(gesture, 6), Flag(microphone), Enum(mode, 4))
    case _ => Nil
  }

  function OutcomeFields(m: Board): Fields {
    match m
    case I2cResult(result, readSize, lease, written, read) =>
      Of5(Enum(result, 14), W.Bytes(readSize, 512), OptionalLease(lease), Number(written), Number(read))
    case GpioConfigured(result, pin, lease) => Of3(Enum(result, 14), Number(pin), OptionalLease(lease))
    case GpioValue(result, pin, high, lease) => Of4(Enum(result, 14), Number(pin), Flag(high), OptionalLease(lease))
    case AdcValue(result, channel, millivolts, raw) =>
      Of4(Enum(result, 14), Number(channel), Signed(millivolts), Signed(raw))
    case SpiResult(result, rxSize, lease, written, read) =>
      Of5(Enum(result, 14), W.Bytes(rxSize, 512), OptionalLease(lease), Number(written), Number(read))
    case StorageStatus(state, capacity, used, records, eraseSize) =>
      Of6(Enum(state, 4), Number(capacity), Number(used), Number(records), Number(eraseSize), Fixed(3))
    case RuntimeConfig(active, persistedRuntime, persistence, advertising, pairable, connected, bonds,
                       eventFilter, packetFilter) =>
      Of9(Enum(active, 2), Enum(persistedRuntime, 2), Flag(persistence), Flag(advertising), Flag(pairable),
          Flag(connected), Number(bonds), Number(eventFilter), Number(packetFilter))
    case RemoteProfile(profile) => Of1(OptionalProfile(profile))
    case _ => Nil
  }

  function EventFields(m: Board): Fields {
    match m
    case AudioConfigured(rate, gain, flags) => Of3(Number(rate), Signed(gain), Number(flags))
    case AudioChunk(sequence, offset, count, size, eof, total, result) =>
      Of7(Number(sequence), Number(offset), Number(count), W.Bytes(size, 800), Flag(eof), Number(total),
          Enum(result, 14))
    case InputEvent(sequence, timestamp, source, action, value) =>
      Of5(Number(sequence), Number(timestamp), Enum(source, 5), Enum(action, 4), Signed(value))
    case GestureEvent(sequence, timestamp, gesture) => Of3(Number(sequence), Number(timestamp), Enum(gesture, 6))
    case LogChunk(sequence, cursor, offset, count, size, eof, total, result) =>
      Of8(Number(sequence), Number(cursor), Number(offset), Number(count), W.Bytes(size, 900), Flag(eof),
          Number(total), Enum(result, 14))
    case BoardStatus(timestamp, code, result, resource, instance, progress, terminal, detail) =>
      Of8(Number(timestamp), Enum(code, 8), Enum(result, 14), Enum(resource, 6), Number(instance),
          Number(progress), Flag(terminal), W.Text(detail))
    case _ => Nil
  }

  function FieldsOf(m: Board): Fields {
    if IsBus(m) then BusFields(m)
    else if IsControl(m) then ControlFields(m)
    else if IsReport(m) then ReportFields(m)
    else if IsOutcome(m) then OutcomeFields(m)
    else EventFields(m)
  }

  // ---------------------------------------------------------------- the validators check the declared types

  /** A value of the declared type: a known enumerator, a count within capacity, a terminated string. */
  ghost predicate WellTyped(f: Field)
    decreases f, 0
  {
    match f
    case Enum(n, last) => n <= last
    case OptionalEnum(o, last) => o.Some? ==> o.value <= last
    case Bytes(size, capacity) => size <= capacity
    case Text(chars) => Terminated(chars)
    case Packed(count, capacity, _) => count <= capacity
    case Message(_, fields) => AllTyped(fields)
    case Repeated(count, capacity, elements) => count <= capacity && AllTyped(elements)
    case _ => true
  }

  ghost predicate AllTyped(fs: Fields)
    decreases fs, 1
  {
    match fs
    case Nil => true
    case Cons(f, rest) => WellTyped(f) && AllTyped(rest)
  }

  /** The bytes from `offset` on lie before the end, unless the end is unknown. */
  predicate SpanWithin(offset: u32, count: u32, total: u32) {
    total == 0 || offset + count <= total
  }

  // What the validators ask for beyond the types: a request must not ask for more than the answer can
  // hold, counted bytes must be there and within the whole, and an operation must be given.

  predicate BusLimits(m: Board) {
    match m
    case I2cTransfer(_, _, readLength, _, _, _, _) => readLength <= 512
    case SpiTransfer(_, _, _, _, readLength, _, _) => readLength <= 512
    case _ => true
  }

  predicate ControlLimits(m: Board) {
    match m
    case StorageReadLog(_, maxBytes) => maxBytes <= 900
    case SetRuntimeConfig(operation) => !operation.NoOperation?
    case RawPcmDiagnostics(_, chunkSize) => chunkSize <= 800
    case _ => true
  }

  predicate ReportLimits(m: Board) {
    match m
    case SensorSample(_, _, _, status, _) => status <= 0x7f
    case _ => true
  }

  predicate OutcomeLimits(m: Board) {
    match m
    case I2cResult(_, readSize, _, _, read) => read <= readSize
    case SpiResult(_, rxSize, _, _, read) => read <= rxSize
    case _ => true
  }

  predicate EventLimits(m: Board) {
    match m
    case AudioChunk(_, offset, count, size, _, total, _) => count <= size && SpanWithin(offset, count, total)
    case LogChunk(_, _, offset, count, size, _, total, _) => count <= size && SpanWithin(offset, count, total)
    case BoardStatus(_, _, _, _, _, progress, _, _) => progress <= 1000
    case _ => true
  }

  predicate WithinLimits(m: Board) {
    if IsBus(m) then BusLimits(m)
    else if IsControl(m) then ControlLimits(m)
    else if IsReport(m) then ReportLimits(m)
    else if IsOutcome(m) then OutcomeLimits(m)
    else EventLimits(m)
  }

  lemma TypedRules()
    ensures AllTyped(Nil)
    ensures forall f: Field, rest: Fields :: AllTyped(Cons(f, rest)) <==> WellTyped(f) && AllTyped(rest)
    ensures forall n: nat :: WellTyped(Number(n))
    ensures forall b: bool :: WellTyped(Flag(b))
    ensures forall i: i32 :: WellTyped(Signed(i))
    ensures forall n: nat, last: nat :: WellTyped(Enum(n, last)) <==> n <= last
    ensures forall n: nat, capacity: nat :: WellTyped(W.Bytes(n, capacity)) <==> n <= capacity
    ensures forall n: nat :: WellTyped(Fixed(n))
    ensures forall chars: seq<byte> :: WellTyped(W.Text(chars)) <==> Terminated(chars)
    ensures forall present: bool, fs: Fields :: WellTyped(Message(present, fs)) <==> AllTyped(fs)
    ensures forall n: nat, capacity: nat, fs: Fields ::
              WellTyped(Repeated(n, capacity, fs)) <==> n <= capacity && AllTyped(fs)
    ensures forall n: nat, capacity: nat, values: seq<nat> :: WellTyped(Packed(n, capacity, values)) <==> n <= capacity
  {
  }

  lemma {:induction false} MappingsTyped(ms: seq<Mapping>)
    ensures AllTyped(MappingList(ms)) <==> forall i | 0 <= i < |ms| :: MappingOk(ms[i])
  {
    TypedRules();
    hide WellTyped, AllTyped;
    if ms != [] {
      MappingsTyped(ms[1..]);
      assert forall i | 0 < i < |ms| :: ms[i] == ms[1..][i - 1];
      if forall i | 0 <= i < |ms| :: MappingOk(ms[i]) {
        assert MappingOk(ms[0]);
      }
    }
  }

  lemma MappingListTyped(p: Profile)
    requires p.count <= 16
    ensures AllTyped(MappingList(p.mappings[..p.count])) <==> forall i | 0 <= i < p.count :: MappingOk(p.mappings[i])
  {
    var ms := p.mappings[..p.count];
    MappingsTyped(ms);
    hide AllTyped, MappingList, MappingOk;
    assert forall i | 0 <= i < p.count :: ms[i] == p.mappings[i];
  }

  lemma ProfileTyped(p: Profile)
    ensures AllTyped(ProfileFields(p)) <==> ProfileOk(p)
  {
    TypedRules();
    hide WellTyped, AllTyped, MappingList, MappingOk, Terminated;
    if p.count <= 16 {
      MappingListTyped(p);
    }
  }

  lemma {:induction false} NamesTyped(names: seq<Chars16>)
    ensures AllTyped(NameList(names)) <==> forall i | 0 <= i < |names| :: Terminated(names[i])
  {
    TypedRules();
    hide WellTyped, AllTyped, Terminated;
    if names != [] {
      NamesTyped(names[1..]);
      assert forall i | 0 < i < |names| :: names[i] == names[1..][i - 1];
      if forall i | 0 <= i < |names| :: Terminated(names[i]) {
        assert Terminated(names[0]);
      }
    }
  }

  lemma NameListTyped(d: Descriptor)
    requires d.nameCount <= 10
    ensures AllTyped(NameList(d.names[..d.nameCount])) <==> forall i | 0 <= i < d.nameCount :: Terminated(d.names[i])
  {
    var names := d.names[..d.nameCount];
    NamesTyped(names);
    hide AllTyped, NameList, Terminated;
    assert forall i | 0 <= i < d.nameCount :: names[i] == d.names[i];
  }

  lemma DescriptorTyped(d: Descriptor)
    ensures AllTyped(DescriptorFields(d)) <==> DescriptorOk(d)
  {
    TypedRules();
    hide WellTyped, AllTyped, NameList, Terminated;
    if d.nameCount <= 10 {
      NameListTyped(d);
    }
  }

  lemma OperationTyped(operation: Operation)
    ensures AllTyped(OperationFields(operation)) <==>
              (operation.Update? && operation.persisted.Some? ==> operation.persisted.value <= 2)
  {
    TypedRules();
    assert forall o: Option<nat> :: WellTyped(Optional(o));
    assert forall o: Option<nat> :: WellTyped(OptionalEnum(o, 2)) <==> (o.Some? ==> o.value <= 2);
    hide WellTyped, AllTyped;
  }

  lemma BusExactly(m: Board)
    ensures BusOk(m) <==> AllTyped(BusFields(m)) && BusLimits(m)
  {
    TypedRules();
    hide WellTyped, AllTyped;
  }

  lemma ControlExactly(m: Board)
    requires !m.ReleasePin?
    ensures ControlOk(m) <==> AllTyped(ControlFields(m)) && ControlLimits(m)
  {
    TypedRules();
    hide WellTyped, AllTyped, Terminated, ProfileFields, OperationFields, ProfileOk;
    if m.SetRuntimeConfig? {
      OperationTyped(m.operation);
    }
    if m.RemoteProfileSet? && m.profile.Some? {
      ProfileTyped(m.profile.value);
    }
  }

  lemma ReportExactly(m: Board)
    ensures ReportOk(m) <==> AllTyped(ReportFields(m)) && ReportLimits(m)
  {
    TypedRules();
    hide WellTyped, AllTyped, Terminated, DescriptorFields, DescriptorOk;
    if m.SensorDescriptor? && m.descriptor.Some? {
      DescriptorTyped(m.descriptor.value);
    }
  }

  lemma OutcomeExactly(m: Board)
    ensures OutcomeOk(m) <==> AllTyped(OutcomeFields(m)) && OutcomeLimits(m)
  {
    TypedRules();
    hide WellTyped, AllTyped, Terminated, ProfileFields, ProfileOk;
    if m.RemoteProfile? && m.profile.Some? {
      ProfileTyped(m.profile.value);
    }
  }

  lemma EventExactly(m: Board)
    ensures EventOk(m) <==> AllTyped(EventFields(m)) && EventLimits(m)
  {
    TypedRules();
    hide WellTyped, AllTyped, Terminated;
  }

  lemma ReleasePinTyped(m: Board)
    requires m.ReleasePin?
    ensures ControlOk(m) <==>
              if m.lease.Some? then LeaseOk(m.lease) else AllTyped(ControlFields(m)) && ControlLimits(m)
  {
    TypedRules();
    hide WellTyped, AllTyped;
  }

  /** The validators accept exactly the values that have their declared types and are within the limits,
      except that with a lease they do not look at the `resource` of release_pin. */
  lemma AcceptableExactly(m: Board)
    ensures Acceptable(m) <==>
              if m.ReleasePin? && m.lease.Some? then LeaseOk(m.lease)
              else AllTyped(FieldsOf(m)) && WithinLimits(m)
  {
    assert m.ReleasePin? ==> IsControl(m) && !IsBus(m);
    hide IsBus, IsControl, IsReport, IsOutcome, AllTyped, LeaseOk;
    hide BusOk, ControlOk, ReportOk, OutcomeOk, EventOk;
    hide BusFields, ControlFields, ReportFields, OutcomeFields, EventFields;
    hide BusLimits, ControlLimits, ReportLimits, OutcomeLimits, EventLimits;
    if m.ReleasePin? {
      ReleasePinTyped(m);
    } else {
      BusExactly(m);
      ControlExactly(m);
      ReportExactly(m);
      OutcomeExactly(m);
      EventExactly(m);
    }
  }
}

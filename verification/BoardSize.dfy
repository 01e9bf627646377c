/** Encoded sizes of Board messages, from their field lists and the Protocol Buffers encoding guide:
    a field is a tag and a value, and a singular field that holds its default is left out. */
module BoardSize {
  import opened Types
  import opened BoardMessages
  import Varint
  import opened ProtoWire

  // ---------------------------------------------------------------- one field (tags up to 15 take one byte)

  function Always(n: nat): (k: nat)
    ensures n < 0x80 ==> k == 2
    ensures n < TWO32 ==> k <= 6
  {
    Varint.SizeBounds(n);
    1 + Varint.Size(n)
  }

  function UInt(n: nat): (k: nat)
    ensures n < 0x80 ==> k <= 2
    ensures n < 0x4000 ==> k <= 3
    ensures n < TWO32 ==> k <= 6
    ensures n < TWO32 * TWO32 ==> k <= 11
  {
    Varint.SizeBounds(n);
    if n == 0 then 0 else 1 + Varint.Size(n)
  }

  function Bool(b: bool): (k: nat)
    ensures k <= 2
  {
    if b then 2 else 0
  }

  function SInt(n: i32): (k: nat)
    ensures k <= 6
  {
    UInt(ZigZag(n))
  }

  /** Tag, length and contents. */
  function Delimited(length: nat): (k: nat)
    ensures length < 0x80 ==> k == length + 2
    ensures length < 0x4000 ==> k <= length + 3
    ensures k >= length + 2
  {
    Varint.SizeBounds(length);
    1 + Varint.Size(length) + length
  }

  function Blob(length: nat): (k: nat)
    ensures length < 0x80 ==> k <= length + 2
    ensures length < 0x4000 ==> k <= length + 3
  {
    if length == 0 then 0 else Delimited(length)
  }

  function Text(s: seq<byte>): (k: nat)
    ensures Terminated(s) && |s| <= 0x80 ==> k <= |s| + 1
  {
    Blob(Length(s))
  }

  // ---------------------------------------------------------------- nested messages

  function LeaseBody(lease: Lease): nat {
    UInt(lease.resource) + UInt(lease.instance) + UInt(lease.generation) + UInt(lease.owner)
  }

  function LeaseField(lease: Option<Lease>): (k: nat)
    ensures (lease.Some? ==> LeaseOk(lease)) ==> k <= 22
  {
    if lease.Some? then Delimited(LeaseBody(lease.value)) else 0
  }

  function MappingBody(m: Mapping): (k: nat)
    ensures MappingOk(m) ==> k <= 22
  {
    UInt(m.source) + UInt(m.action) + UInt(m.usagePage) + UInt(m.usage) + SInt(m.value)
  }

  function MappingFields(ms: seq<Mapping>): nat {
    if ms == [] then 0 else Delimited(MappingBody(ms[0])) + MappingFields(ms[1..])
  }

  lemma {:induction false} MappingFieldsBound(ms: seq<Mapping>)
    requires forall i | 0 <= i < |ms| :: MappingOk(ms[i])
    ensures MappingFields(ms) <= 24 * |ms|
  {
    if ms != [] {
      MappingFieldsBound(ms[1..]);
    }
  }

  function ProfileBody(p: Profile): nat {
    UInt(p.profileId) + Text(p.name) + UInt(p.sensitivity) + UInt(p.deadzone) + Bool(p.pointerMode)
    + Bool(p.tiltMode) + MappingFields(p.mappings[..Min(p.count, 16)])
  }

  function ProfileField(profile: Option<Profile>): nat {
    if profile.Some? then Delimited(ProfileBody(profile.value)) else 0
  }

  lemma ProfileBound(p: Profile)
    requires ProfileOk(p)
    ensures ProfileBody(p) <= 439
  {
    MappingFieldsBound(p.mappings[..Min(p.count, 16)]);
  }

  function NameFields(names: seq<Chars16>): nat {
    if names == [] then 0 else Delimited(Length(names[0])) + NameFields(names[1..])
  }

  lemma {:induction false} NameFieldsBound(names: seq<Chars16>)
    requires forall i | 0 <= i < |names| :: Terminated(names[i])
    ensures NameFields(names) <= 17 * |names|
  {
    if names != [] {
      NameFieldsBound(names[1..]);
    }
  }

  /** A packed repeated field: one tag and length for all values. */
  function PackedLength(values: seq<u32>): nat {
    if values == [] then 0 else Varint.Size(values[0]) + PackedLength(values[1..])
  }

  lemma {:induction false} PackedLengthBound(values: seq<u32>)
    ensures PackedLength(values) <= 5 * |values|
  {
    if values != [] {
      Varint.SizeBounds(values[0]);
      PackedLengthBound(values[1..]);
    }
  }

  function DescriptorBody(d: Descriptor): nat {
    UInt(d.sensorId) + Text(d.name) + Text(d.unit) + UInt(d.valueCount)
    + NameFields(d.names[..Min(d.nameCount, 10)])
    + UInt(d.defaultRate) + UInt(d.minRate) + UInt(d.maxRate)
    + Blob(PackedLength(d.rates[..Min(d.rateCount, 8)]))
  }

  function DescriptorField(descriptor: Option<Descriptor>): nat {
    if descriptor.Some? then Delimited(DescriptorBody(descriptor.value)) else 0
  }

  lemma DescriptorBound(d: Descriptor)
    requires DescriptorOk(d)
    ensures DescriptorBody(d) <= 314
  {
    NameFieldsBound(d.names[..Min(d.nameCount, 10)]);
    PackedLengthBound(d.rates[..Min(d.rateCount, 8)]);
  }

  function OptionalUInt(n: Option<u32>): nat {
    if n.Some? then Always(n.value) else 0
  }

  function OperationField(operation: Operation): nat {
    match operation
    case Update(persisted, eventFilter, packetFilter) =>
      Delimited(OptionalUInt(persisted) + OptionalUInt(eventFilter) + OptionalUInt(packetFilter))
    case OpenPairingWindow(duration) => Delimited(UInt(duration))
    case ClearBonds(nonce) => Delimited(UInt(nonce))
    case NoOperation => 0
  }

  // ---------------------------------------------------------------- the 49 messages

  function BusBody(m: Board): nat {
    match m
    case ListSensors(cursor) => UInt(cursor)
    case ReadSensor(sensorId) => UInt(sensorId)
    case ConfigureStream(sensorId, rate, flags) => UInt(sensorId) + UInt(rate) + UInt(flags)
    case StopStream(sensorId) => UInt(sensorId)
    case Calibrate(sensorId, flags, persist) => UInt(sensorId) + UInt(flags) + Bool(persist)
    case GetCalibration(sensorId) => UInt(sensorId)
    case SetOutput(target, level, duration, stop, force, lease) =>
      UInt(target) + UInt(level) + UInt(duration) + Bool(stop) + Bool(force) + LeaseField(lease)
    case ConfigureInput(mode, flags, dwell, deadzone, persist) =>
      UInt(mode) + UInt(flags) + UInt(dwell) + UInt(deadzone) + Bool(persist)
    case I2cTransfer(address, writeSize, readLength, repeatedStart, frequency, force, lease) =>
      UInt(address) + Blob(writeSize) + UInt(readLength) + Bool(repeatedStart) + UInt(frequency) + Bool(force)
      + LeaseField(lease)
    case GpioConfigure(pin, direction, pull, initial, force, lease) =>
      UInt(pin) + UInt(direction) + UInt(pull) + Bool(initial) + Bool(force) + LeaseField(lease)
    case GpioRead(pin, force, lease) => UInt(pin) + Bool(force) + LeaseField(lease)
    case GpioWrite(pin, high, lease) => UInt(pin) + Bool(high) + LeaseField(lease)
    case AdcRead(channel, samples) => UInt(channel) + UInt(samples)
    case SpiTransfer(csPin, frequency, mode, txSize, readLength, force, lease) =>
      UInt(csPin) + UInt(frequency) + UInt(mode) + Blob(txSize) + UInt(readLength) + Bool(force) + LeaseField(lease)
    case _ => 0
  }

  function ControlBody(m: Board): nat {
    match m
    case StorageAdopt(nonce, force) => UInt(nonce) + Bool(force)
    case StorageReadLog(cursor, maxBytes) => UInt(cursor) + UInt(maxBytes)
    case StorageEraseLog(nonce) => UInt(nonce)
    case SetRuntimeConfig(operation) => OperationField(operation)
    case SetRuntimeMode(runtime, persist, reboot) => UInt(runtime) + Bool(persist) + Bool(reboot)
    case RemoteProfileGet(profileId) => UInt(profileId)
    case RemoteProfileSet(profile, persist) => ProfileField(profile) + Bool(persist)
    case AudioConfigure(on, rate, gain, flags) => Bool(on) + UInt(rate) + SInt(gain) + UInt(flags)
    case ReleasePin(lease, resource, instance) => LeaseField(lease) + UInt(resource) + UInt(instance)
    case RawPcmDiagnostics(duration, chunkSize) => UInt(duration) + UInt(chunkSize)
    case _ => 0
  }

  function ReportBody(m: Board): nat {
    match m
    case CommandResult(command, result, terminal, detail) =>
      UInt(command) + UInt(result) + Bool(terminal) + Text(detail)
    case BoardInfo(name, hardware, firmware, variant, idSize, runtime, sensors) =>
      Text(name) + Text(hardware) + Text(firmware) + Text(variant) + Blob(idSize) + UInt(runtime) + UInt(sensors)
    case SensorDescriptor(descriptor, nextCursor, eof) => DescriptorField(descriptor) + UInt(nextCursor) + Bool(eof)
    case SensorSample(sensorId, sequence, timestamp, status, valueCount) =>
      UInt(sensorId) + UInt(sequence) + UInt(timestamp) + UInt(status) + Blob(4 * valueCount)
    case StreamConfigured(sensorId, rate, flags) => UInt(sensorId) + UInt(rate) + UInt(flags)
    case Calibration(sensorId, version, dataSize, persisted, crc) =>
      UInt(sensorId) + UInt(version) + Blob(dataSize) + Bool(persisted) + UInt(crc)
    case InputState(sequence, timestamp, buttons, gesture, microphone, mode) =>
      UInt(sequence) + UInt(timestamp) + UInt(buttons) + UInt(gesture) + Bool(microphone) + UInt(mode)
    case _ => 0
  }

  function OutcomeBody(m: Board): nat {
    match m
    case I2cResult(result, readSize, lease, written, read) =>
      UInt(result) + Blob(readSize) + LeaseField(lease) + UInt(written) + UInt(read)
    case GpioConfigured(result, pin, lease) => UInt(result) + UInt(pin) + LeaseField(lease)
    case GpioValue(result, pin, high, lease) => UInt(result) + UInt(pin) + Bool(high) + LeaseField(lease)
    case AdcValue(result, channel, millivolts, raw) => UInt(result) + UInt(channel) + SInt(millivolts) + SInt(raw)
    case SpiResult(result, rxSize, lease, written, read) =>
      UInt(result) + Blob(rxSize) + LeaseField(lease) + UInt(written) + UInt(read)
    case StorageStatus(state, capacity, used, records, eraseSize) =>
      UInt(state) + UInt(capacity) + UInt(used) + UInt(records) + UInt(eraseSize) + Delimited(3)
    case RuntimeConfig(active, persistedRuntime, persistence, advertising, pairable, connected, bonds,
                       eventFilter, packetFilter) =>
      UInt(active) + UInt(persistedRuntime) + Bool(persistence) + Bool(advertising) + Bool(pairable)
      + Bool(connected) + UInt(bonds) + UInt(eventFilter) + UInt(packetFilter)
    case RemoteProfile(profile) => ProfileField(profile)
    case _ => 0
  }

  function EventBody(m: Board): nat {
    match m
    case AudioConfigured(rate, gain, flags) => UInt(rate) + SInt(gain) + UInt(flags)
    case AudioChunk(sequence, offset, count, size, eof, total, result) =>
      UInt(sequence) + UInt(offset) + UInt(count) + Blob(size) + Bool(eof) + UInt(total) + UInt(result)
    case InputEvent(sequence, timestamp, source, action, value) =>
      UInt(sequence) + UInt(timestamp) + UInt(source) + UInt(action) + SInt(value)
    case GestureEvent(sequence, timestamp, gesture) => UInt(sequence) + UInt(timestamp) + UInt(gesture)
    case LogChunk(sequence, cursor, offset, count, size, eof, total, result) =>
      UInt(sequence) + UInt(cursor) + UInt(offset) + UInt(count) + Blob(size) + Bool(eof) + UInt(total) + UInt(result)
    case BoardStatus(timestamp, code, result, resource, instance, progress, terminal, detail) =>
      UInt(timestamp) + UInt(code) + UInt(result) + UInt(resource) + UInt(instance) + UInt(progress)
      + Bool(terminal) + Text(detail)
    case _ => 0
  }

  function Body(m: Board): nat {
    if IsBus(m) then BusBody(m)
    else if IsControl(m) then ControlBody(m)
    else if IsReport(m) then ReportBody(m)
    else if IsOutcome(m) then OutcomeBody(m)
    else EventBody(m)
  }

  /** The field number of each message in the Board oneof. */
  function TagOf(m: Board): (tag: int)
    ensures 2 <= tag <= 50
  {
    match m
    case GetBoardInfo => 2 case ListSensors(_) => 3 case ReadSensor(_) => 4 case ConfigureStream(_, _, _) => 5
    case StopStream(_) => 6 case Calibrate(_, _, _) => 7 case GetCalibration(_) => 8
    case SetOutput(_, _, _, _, _, _) => 9 case GetInputState => 10 case ConfigureInput(_, _, _, _, _) => 11
    case I2cTransfer(_, _, _, _, _, _, _) => 12 case GpioConfigure(_, _, _, _, _, _) => 13
    case GpioRead(_, _, _) => 14 case GpioWrite(_, _, _) => 15 case AdcRead(_, _) => 16
    case SpiTransfer(_, _, _, _, _, _, _) => 17 case StorageInfo => 18 case StorageAdopt(_, _) => 19
    case StorageReadLog(_, _) => 20 case StorageEraseLog(_) => 21 case GetRuntimeConfig => 22
    case SetRuntimeConfig(_) => 23 case SetRuntimeMode(_, _, _) => 24 case RemoteProfileGet(_) => 25
    case RemoteProfileSet(_, _) => 26 case AudioConfigure(_, _, _, _) => 27 case ReleasePin(_, _, _) => 28
    case RawPcmDiagnostics(_, _) => 29 case CommandResult(_, _, _, _) => 30
    case BoardInfo(_, _, _, _, _, _, _) => 31 case SensorDescriptor(_, _, _) => 32
    case SensorSample(_, _, _, _, _) => 33 case StreamConfigured(_, _, _) => 34
    case Calibration(_, _, _, _, _) => 35 case InputState(_, _, _, _, _, _) => 36
    case I2cResult(_, _, _, _, _) => 37 case GpioConfigured(_, _, _) => 38 case GpioValue(_, _, _, _) => 39
    case AdcValue(_, _, _, _) => 40 case SpiResult(_, _, _, _, _) => 41 case StorageStatus(_, _, _, _, _) => 42
    case RuntimeConfig(_, _, _, _, _, _, _, _, _) => 43 case RemoteProfile(_) => 44
    case AudioConfigured(_, _, _) => 45 case AudioChunk(_, _, _, _, _, _, _) => 46
    case InputEvent(_, _, _, _, _) => 47 case GestureEvent(_, _, _) => 48
    case LogChunk(_, _, _, _, _, _, _, _) => 49 case BoardStatus(_, _, _, _, _, _, _, _) => 50
  }

  /** The message that a tag stands for in the Board oneof. */
  predicate StandsFor(tag: int, m: Board) {
    match tag
    case 2 => m.GetBoardInfo? case 3 => m.ListSensors? case 4 => m.ReadSensor? case 5 => m.ConfigureStream?
    case 6 => m.StopStream? case 7 => m.Calibrate? case 8 => m.GetCalibration? case 9 => m.SetOutput?
    case 10 => m.GetInputState? case 11 => m.ConfigureInput? case 12 => m.I2cTransfer?
    case 13 => m.GpioConfigure? case 14 => m.GpioRead? case 15 => m.GpioWrite? case 16 => m.AdcRead?
    case 17 => m.SpiTransfer? case 18 => m.StorageInfo? case 19 => m.StorageAdopt? case 20 => m.StorageReadLog?
    case 21 => m.StorageEraseLog? case 22 => m.GetRuntimeConfig? case 23 => m.SetRuntimeConfig?
    case 24 => m.SetRuntimeMode? case 25 => m.RemoteProfileGet? case 26 => m.RemoteProfileSet?
    case 27 => m.AudioConfigure? case 28 => m.ReleasePin? case 29 => m.RawPcmDiagnostics?
    case 30 => m.CommandResult? case 31 => m.BoardInfo? case 32 => m.SensorDescriptor?
    case 33 => m.SensorSample? case 34 => m.StreamConfigured? case 35 => m.Calibration? case 36 => m.InputState?
    case 37 => m.I2cResult? case 38 => m.GpioConfigured? case 39 => m.GpioValue? case 40 => m.AdcValue?
    case 41 => m.SpiResult? case 42 => m.StorageStatus? case 43 => m.RuntimeConfig? case 44 => m.RemoteProfile?
    case 45 => m.AudioConfigured? case 46 => m.AudioChunk? case 47 => m.InputEvent? case 48 => m.GestureEvent?
    case 49 => m.LogChunk? case 50 => m.BoardStatus?
    case _ => false
  }

  /** A tag identifies its message: two messages with equal tags are of the same kind. */
  lemma TagIdentifies(m: Board)
    ensures StandsFor(TagOf(m), m)
  {
  }

  /** The maximum encoded sizes that the generated header states. */
  function Stated(m: Board): (k: nat)
    ensures k <= 937
  {
    match m
    case GetBoardInfo => 0 case ListSensors(_) => 6 case ReadSensor(_) => 6 case ConfigureStream(_, _, _) => 18
    case StopStream(_) => 6 case Calibrate(_, _, _) => 14 case GetCalibration(_) => 6
    case SetOutput(_, _, _, _, _, _) => 40 case GetInputState => 0 case ConfigureInput(_, _, _, _, _) => 22
    case I2cTransfer(_, _, _, _, _, _, _) => 559 case GpioConfigure(_, _, _, _, _, _) => 36
    case GpioRead(_, _, _) => 30 case GpioWrite(_, _, _) => 30 case AdcRead(_, _) => 12
    case SpiTransfer(_, _, _, _, _, _, _) => 559 case StorageInfo => 0 case StorageAdopt(_, _) => 8
    case StorageReadLog(_, _) => 12 case StorageEraseLog(_) => 6 case GetRuntimeConfig => 0
    case SetRuntimeConfig(_) => 16 case SetRuntimeMode(_, _, _) => 6 case RemoteProfileGet(_) => 6
    case RemoteProfileSet(_, _) => 444 case AudioConfigure(_, _, _, _) => 20 case ReleasePin(_, _, _) => 30
    case RawPcmDiagnostics(_, _) => 12 case CommandResult(_, _, _, _) => 103
    case BoardInfo(_, _, _, _, _, _, _) => 158 case SensorDescriptor(_, _, _) => 325
    case SensorSample(_, _, _, _, _) => 79 case StreamConfigured(_, _, _) => 18
    case Calibration(_, _, _, _, _) => 151 case InputState(_, _, _, _, _, _) => 29
    case I2cResult(_, _, _, _, _) => 551 case GpioConfigured(_, _, _) => 30 case GpioValue(_, _, _, _) => 32
    case AdcValue(_, _, _, _) => 20 case SpiResult(_, _, _, _, _) => 551 case StorageStatus(_, _, _, _, _) => 31
    case RuntimeConfig(_, _, _, _, _, _, _, _, _) => 30 case RemoteProfile(_) => 442
    case AudioConfigured(_, _, _) => 18 case AudioChunk(_, _, _, _, _, _, _) => 831
    case InputEvent(_, _, _, _, _) => 27 case GestureEvent(_, _, _) => 19
    case LogChunk(_, _, _, _, _, _, _, _) => 937 case BoardStatus(_, _, _, _, _, _, _, _) => 128
  }

  /** Tag (two bytes from field 16 on), length, body; and the request id in field 1. */
  function BoardMessage(requestId: u32, m: Board): nat {
    UInt(requestId) + (if TagOf(m) < 16 then 0 else 1) + Delimited(Body(m))
  }

  /** The Board message as field 8 of the top-level message. */
  function TopLevel(requestId: u32, m: Board): nat {
    Delimited(BoardMessage(requestId, m))
  }
}

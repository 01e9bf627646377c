/** The 49 messages of the Board domain: their fields, and which values may cross the C API.
    Enumerations are carried as the unsigned integers C stores them in, `has_` flags and the field
    they guard as an Option, and byte arrays by their size, which is all the validators look at. */
module BoardMessages {
  import opened Types

  type Chars16 = s: seq<byte> | |s| == 16 witness seq(16, _ => 0 as byte)
  type Chars32 = s: seq<byte> | |s| == 32 witness seq(32, _ => 0 as byte)
  type Chars96 = s: seq<byte> | |s| == 96 witness seq(96, _ => 0 as byte)

  const NO_CHARS: Chars16 := seq(16, _ => 0 as byte)

  type Names = s: seq<Chars16> | |s| == 10 witness seq(10, _ => NO_CHARS)
  type Rates = s: seq<u32> | |s| == 8 witness seq(8, _ => 0 as u32)
  type Mappings = s: seq<Mapping> | |s| == 16 witness seq(16, _ => Mapping(0, 0, 0, 0, 0))

  datatype Lease = Lease(resource: u32, instance: u32, generation: u32, owner: u32)

  datatype Mapping = Mapping(source: u32, action: u32, usagePage: u32, usage: u32, value: i32)

  datatype Profile = Profile(
    profileId: u32, name: Chars32, sensitivity: u32, deadzone: u32, pointerMode: bool, tiltMode: bool,
    count: u32, mappings: Mappings)

  datatype Descriptor = Descriptor(
    sensorId: u32, name: Chars32, unit: Chars32, valueCount: u32, nameCount: u32, names: Names,
    defaultRate: u32, minRate: u32, maxRate: u32, rateCount: u32, rates: Rates)

  /** The union of set_runtime_config; any other tag stands for no operation. */
  datatype Operation =
    | Update(persisted: Option<u32>, eventFilter: Option<u32>, packetFilter: Option<u32>)
    | OpenPairingWindow(duration: u32)
    | ClearBonds(nonce: u32)
    | NoOperation

  datatype Board =
    | GetBoardInfo
    | ListSensors(cursor: u32)
    | ReadSensor(sensorId: u32)
    | ConfigureStream(sensorId: u32, rate: u32, flags: u32)
    | StopStream(sensorId: u32)
    | Calibrate(sensorId: u32, flags: u32, persist: bool)
    | GetCalibration(sensorId: u32)
    | SetOutput(target: u32, level: u32, duration: u32, stop: bool, force: bool, lease: Option<Lease>)
    | GetInputState
    | ConfigureInput(mode: u32, flags: u32, dwell: u32, deadzone: u32, persist: bool)
    | I2cTransfer(address: u32, writeSize: u32, readLength: u32, repeatedStart: bool, frequency: u32,
                  force: bool, lease: Option<Lease>)
    | GpioConfigure(pin: u32, direction: u32, pull: u32, initial: bool, force: bool, lease: Option<Lease>)
    | GpioRead(pin: u32, force: bool, lease: Option<Lease>)
    | GpioWrite(pin: u32, high: bool, lease: Option<Lease>)
    | AdcRead(channel: u32, samples: u32)
    | SpiTransfer(csPin: u32, frequency: u32, mode: u32, txSize: u32, readLength: u32, force: bool,
                  lease: Option<Lease>)
    | StorageInfo
    | StorageAdopt(nonce: u32, force: bool)
    | StorageReadLog(cursor: u32, maxBytes: u32)
    | StorageEraseLog(nonce: u32)
    | GetRuntimeConfig
    | SetRuntimeConfig(operation: Operation)
    | SetRuntimeMode(runtime: u32, persist: bool, reboot: bool)
    | RemoteProfileGet(profileId: u32)
    | RemoteProfileSet(profile: Option<Profile>, persist: bool)
    | AudioConfigure(on: bool, rate: u32, gain: i32, flags: u32)
    | ReleasePin(lease: Option<Lease>, resource: u32, instance: u32)
    | RawPcmDiagnostics(duration: u32, chunkSize: u32)
    | CommandResult(command: u32, result: u32, terminal: bool, detail: Chars96)
    | BoardInfo(name: Chars32, hardware: Chars32, firmware: Chars32, variant: Chars32, idSize: u32,
                runtime: u32, sensors: u32)
    | SensorDescriptor(descriptor: Option<Descriptor>, nextCursor: u32, eof: bool)
    | SensorSample(sensorId: u32, sequence: u32, timestamp: u64, status: u32, valueCount: u32)
    | StreamConfigured(sensorId: u32, rate: u32, flags: u32)
    | Calibration(sensorId: u32, version: u32, dataSize: u32, persisted: bool, crc: u32)
    | InputState(sequence: u32, timestamp: u64, buttons: u32, gesture: u32, microphone: bool, mode: u32)
    | I2cResult(result: u32, readSize: u32, lease: Option<Lease>, written: u32, read: u32)
    | GpioConfigured(result: u32, pin: u32, lease: Option<Lease>)
    | GpioValue(result: u32, pin: u32, high: bool, lease: Option<Lease>)
    | AdcValue(result: u32, channel: u32, millivolts: i32, raw: i32)
    | SpiResult(result: u32, rxSize: u32, lease: Option<Lease>, written: u32, read: u32)
    | StorageStatus(state: u32, capacity: u32, used: u32, records: u32, eraseSize: u32)
    | RuntimeConfig(active: u32, persistedRuntime: u32, persistence: bool, advertising: bool, pairable: bool,
                    connected: bool, bonds: u32, eventFilter: u32, packetFilter: u32)
    | RemoteProfile(profile: Option<Profile>)
    | AudioConfigured(rate: u32, gain: i32, flags: u32)
    | AudioChunk(sequence: u32, offset: u32, count: u32, size: u32, eof: bool, total: u32, result: u32)
    | InputEvent(sequence: u32, timestamp: u64, source: u32, action: u32, value: i32)
    | GestureEvent(sequence: u32, timestamp: u64, gesture: u32)
    | LogChunk(sequence: u32, cursor: u32, offset: u32, count: u32, size: u32, eof: bool, total: u32, result: u32)
    | BoardStatus(timestamp: u64, code: u32, result: u32, resource: u32, instance: u32, progress: u32,
                  terminal: bool, detail: Chars96)

  // Largest enumerators and array capacities.
  const MAX_COMMAND: int := 27
  const MAX_RESULT: int := 14
  const MAX_STATUS_CODE: int := 8
  const MAX_RUNTIME: int := 2
  const MAX_RESOURCE: int := 6
  const MAX_OUTPUT: int := 5
  const MAX_INPUT_MODE: int := 4
  const MAX_SOURCE: int := 5
  const MAX_ACTION: int := 4
  const MAX_GESTURE: int := 6
  const MAX_DIRECTION: int := 2
  const MAX_PULL: int := 3
  const MAX_SPI_MODE: int := 4
  const MAX_STORAGE_STATE: int := 4
  const ID_CAPACITY: int := 16
  const CALIBRATION_CAPACITY: int := 128
  const TRANSFER_CAPACITY: int := 512
  const AUDIO_CAPACITY: int := 800
  const LOG_CAPACITY: int := 900
  const STATUS_FLAGS: int := 0x7f

  // ---------------------------------------------------------------- which values are acceptable

  predicate Terminated(s: seq<byte>) {
    exists i | 0 <= i < |s| :: s[i] == 0
  }

  predicate LeaseOk(lease: Option<Lease>) {
    lease.Some? ==> lease.value.resource <= MAX_RESOURCE
  }

  predicate MappingOk(m: Mapping) {
    m.source <= MAX_SOURCE && m.action <= MAX_ACTION
  }

  /** Only the mappings in use matter. */
  predicate ProfileOk(p: Profile) {
    && Terminated(p.name)
    && p.count <= 16
    && forall i | 0 <= i < p.count :: MappingOk(p.mappings[i])
  }

  /** Only the component names in use matter. */
  predicate DescriptorOk(d: Descriptor) {
    && Terminated(d.name) && Terminated(d.unit)
    && d.nameCount <= 10
    && (forall i | 0 <= i < d.nameCount :: Terminated(d.names[i]))
    && d.rateCount <= 8
  }

  /** A chunk: known result, counted bytes present, array not overrun, and inside the total unless
      the total is unknown. */
  predicate ChunkOk(result: u32, offset: u32, count: u32, size: u32, capacity: int, total: u32) {
    && result <= MAX_RESULT
    && count <= size <= capacity
    && (total == 0 || offset + count <= total)
  }

  // The messages by their place in the union: requests for sensors, pins and buses; requests for
  // storage, runtime and profiles; answers about the device and its sensors; answers to transfers and
  // about storage and runtime; chunks and events.

  predicate IsBus(m: Board) {
    m.GetBoardInfo? || m.ListSensors? || m.ReadSensor? || m.ConfigureStream? || m.StopStream? || m.Calibrate?
    || m.GetCalibration? || m.SetOutput? || m.GetInputState? || m.ConfigureInput? || m.I2cTransfer?
    || m.GpioConfigure? || m.GpioRead? || m.GpioWrite? || m.AdcRead? || m.SpiTransfer?
  }

  predicate IsControl(m: Board): (r: bool)
    ensures r ==> !IsBus(m)
  {
    m.StorageInfo? || m.StorageAdopt? || m.StorageReadLog? || m.StorageEraseLog? || m.GetRuntimeConfig?
    || m.SetRuntimeConfig? || m.SetRuntimeMode? || m.RemoteProfileGet? || m.RemoteProfileSet?
    || m.AudioConfigure? || m.ReleasePin? || m.RawPcmDiagnostics?
  }

  predicate IsReport(m: Board): (r: bool)
    ensures r ==> !IsBus(m) && !IsControl(m)
  {
    m.CommandResult? || m.BoardInfo? || m.SensorDescriptor? || m.SensorSample? || m.StreamConfigured?
    || m.Calibration? || m.InputState?
  }

  predicate IsOutcome(m: Board): (r: bool)
    ensures r ==> !IsBus(m) && !IsControl(m) && !IsReport(m)
  {
    m.I2cResult? || m.GpioConfigured? || m.GpioValue? || m.AdcValue? || m.SpiResult? || m.StorageStatus?
    || m.RuntimeConfig? || m.RemoteProfile?
  }

  predicate IsEvent(m: Board): (r: bool)
    ensures r ==> !IsBus(m) && !IsControl(m) && !IsReport(m) && !IsOutcome(m)
  {
    m.AudioConfigured? || m.AudioChunk? || m.InputEvent? || m.GestureEvent? || m.LogChunk? || m.BoardStatus?
  }

  predicate BusOk(m: Board) {
    match m
    case SetOutput(target, _, _, _, _, lease) => target <= MAX_OUTPUT && LeaseOk(lease)
    case ConfigureInput(mode, _, _, _, _) => mode <= MAX_INPUT_MODE
    case I2cTransfer(_, writeSize, readLength, _, _, _, lease) =>
      writeSize <= TRANSFER_CAPACITY && readLength <= TRANSFER_CAPACITY && LeaseOk(lease)
    case GpioConfigure(_, direction, pull, _, _, lease) =>
      direction <= MAX_DIRECTION && pull <= MAX_PULL && LeaseOk(lease)
    case GpioRead(_, _, lease) => LeaseOk(lease)
    case GpioWrite(_, _, lease) => LeaseOk(lease)
    case SpiTransfer(_, _, mode, txSize, readLength, _, lease) =>
      mode <= MAX_SPI_MODE && txSize <= TRANSFER_CAPACITY && readLength <= TRANSFER_CAPACITY && LeaseOk(lease)
    case _ => true
  }

  predicate ControlOk(m: Board) {
    match m
    case StorageReadLog(_, maxBytes) => maxBytes <= LOG_CAPACITY
    case SetRuntimeConfig(operation) =>
      !operation.NoOperation?
      && (operation.Update? && operation.persisted.Some? ==> operation.persisted.value <= MAX_RUNTIME)
    case SetRuntimeMode(runtime, _, _) => runtime <= MAX_RUNTIME
    case RemoteProfileSet(profile, _) => profile.Some? ==> ProfileOk(profile.value)
    case ReleasePin(lease, resource, _) => if lease.Some? then LeaseOk(lease) else resource <= MAX_RESOURCE
    case RawPcmDiagnostics(_, chunkSize) => chunkSize <= AUDIO_CAPACITY
    case _ => true
  }

  predicate ReportOk(m: Board) {
    match m
    case CommandResult(command, result, _, detail) =>
      command <= MAX_COMMAND && result <= MAX_RESULT && Terminated(detail)
    case BoardInfo(name, hardware, firmware, variant, idSize, runtime, _) =>
      Terminated(name) && Terminated(hardware) && Terminated(firmware) && Terminated(variant)
      && idSize <= ID_CAPACITY && runtime <= MAX_RUNTIME
    case SensorDescriptor(descriptor, _, _) => descriptor.Some? ==> DescriptorOk(descriptor.value)
    case SensorSample(_, _, _, status, valueCount) => valueCount <= 10 && status <= STATUS_FLAGS
    case Calibration(_, _, dataSize, _, _) => dataSize <= CALIBRATION_CAPACITY
    case InputState(_, _, _, gesture, _, mode) => gesture <= MAX_GESTURE && mode <= MAX_INPUT_MODE
    case _ => true
  }

  predicate OutcomeOk(m: Board) {
    match m
    case I2cResult(result, readSize, lease, _, read) =>
      result <= MAX_RESULT && read <= readSize <= TRANSFER_CAPACITY && LeaseOk(lease)
    case GpioConfigured(result, _, lease) => result <= MAX_RESULT && LeaseOk(lease)
    case GpioValue(result, _, _, lease) => result <= MAX_RESULT && LeaseOk(lease)
    case AdcValue(result, _, _, _) => result <= MAX_RESULT
    case SpiResult(result, rxSize, lease, _, read) =>
      result <= MAX_RESULT && read <= rxSize <= TRANSFER_CAPACITY && LeaseOk(lease)
    case StorageStatus(state, _, _, _, _) => state <= MAX_STORAGE_STATE
    case RuntimeConfig(active, persistedRuntime, _, _, _, _, _, _, _) =>
      active <= MAX_RUNTIME && persistedRuntime <= MAX_RUNTIME
    case RemoteProfile(profile) => profile.Some? ==> ProfileOk(profile.value)
    case _ => true
  }

  predicate EventOk(m: Board) {
    match m
    case AudioChunk(_, offset, count, size, _, total, result) =>
      ChunkOk(result, offset, count, size, AUDIO_CAPACITY, total)
    case InputEvent(_, _, source, action, _) => source <= MAX_SOURCE && action <= MAX_ACTION
    case GestureEvent(_, _, gesture) => gesture <= MAX_GESTURE
    case LogChunk(_, _, offset, count, size, _, total, result) =>
      ChunkOk(result, offset, count, size, LOG_CAPACITY, total)
    case BoardStatus(_, code, result, resource, _, progress, _, detail) =>
      code <= MAX_STATUS_CODE && result <= MAX_RESULT && resource <= MAX_RESOURCE
      && progress <= 1000 && Terminated(detail)
    case _ => true
  }

  /** The values that the validators accept. With a lease, `resource` of release_pin is not checked. */
  predicate Acceptable(m: Board) {
    if IsBus(m) then BusOk(m)
    else if IsControl(m) then ControlOk(m)
    else if IsReport(m) then ReportOk(m)
    else if IsOutcome(m) then OutcomeOk(m)
    else EventOk(m)
  }
}

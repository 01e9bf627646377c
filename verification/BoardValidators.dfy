/** The validators of src/domains/board.c that loop, nest or combine tests, branch by branch, against
    the specification of acceptable values. A validator that is one range test is that test in
    Acceptable; EnumTest relates the two. NULL checks never fire, since the callers make them
    first. */
module BoardValidators {
  import opened Types
  import opened BoardMessages

  /** An enumeration is passed to the range test as a signed int. */
  function AsInt(value: u32): i32 {
    if value < 0x8000_0000 then value else value - TWO32
  }

  predicate ValidEnum(value: i32, min: int, max: int) {
    value >= min && value <= max
  }

  /** The signed test accepts exactly the unsigned values up to the largest enumerator. */
  lemma EnumTest(value: u32, max: nat)
    requires max < 0x8000_0000
    ensures ValidEnum(AsInt(value), 0, max) <==> value <= max
  {
  }

  /** The sum is formed in 64 bits, so it cannot wrap. */
  predicate ValidSpan(offset: u32, count: u32, total: u32) {
    var end: u64 := offset + count;
    total == 0 || end <= total
  }

  /** memchr for a NUL byte in the array. */
  method ValidString(text: seq<byte>) returns (ok: bool)
    ensures ok <==> Terminated(text)
  {
    var i := 0;
    while i < |text|
      invariant 0 <= i <= |text|
      invariant forall j | 0 <= j < i :: text[j] != 0
    {
      if text[i] == 0 {
        return true;
      }
      i := i + 1;
    }
    return false;
  }

  function Verdict(ok: bool): Status {
    if ok then Success else Error
  }

  method ValidateLease(lease: Option<Lease>) returns (r: Status)
    ensures r == Verdict(LeaseOk(lease))
  {
    if lease.Some? {
      if !ValidEnum(AsInt(lease.value.resource), 0, MAX_RESOURCE) {
        return Error;
      }
    }
    return Success;
  }

  method ValidateDescriptor(d: Descriptor) returns (r: Status)
    ensures r == Verdict(DescriptorOk(d))
  {
    var ok := ValidString(d.name);
    if !ok {
      return Error;
    }
    ok := ValidString(d.unit);
    if !ok {
      return Error;
    }
    if d.nameCount > 10 {
      return Error;
    }
    var i := 0;
    while i < d.nameCount
      invariant 0 <= i <= d.nameCount
      invariant forall j | 0 <= j < i :: Terminated(d.names[j])
    {
      ok := ValidString(d.names[i]);
      if !ok {
        return Error;
      }
      i := i + 1;
    }
    if d.rateCount > 8 {
      return Error;
    }
    return Success;
  }

  method ValidateMapping(m: Mapping) returns (r: Status)
    ensures r == Verdict(MappingOk(m))
  {
    if !ValidEnum(AsInt(m.source), 0, MAX_SOURCE) {
      return Error;
    }
    if !ValidEnum(AsInt(m.action), 0, MAX_ACTION) {
      return Error;
    }
    return Success;
  }

  method ValidateProfile(p: Profile) returns (r: Status)
    ensures r == Verdict(ProfileOk(p))
  {
    var ok := ValidString(p.name);
    if !ok {
      return Error;
    }
    if p.count > 16 {
      return Error;
    }
    var i := 0;
    while i < p.count
      invariant 0 <= i <= p.count
      invariant forall j | 0 <= j < i :: MappingOk(p.mappings[j])
    {
      r := ValidateMapping(p.mappings[i]);
      if r != Success {
        return Error;
      }
      i := i + 1;
    }
    return Success;
  }

  /** A status has no bit outside the known flags. */
  lemma StatusMask(status: bv32)
    ensures status & !0x7f == 0 <==> status <= 0x7f
  {
  }

  lemma StatusNumber(status: bv32)
    ensures status <= 0x7f <==> status as int <= STATUS_FLAGS
  {
  }

  method ValidateChunk(result: u32, offset: u32, count: u32, size: u32, capacity: int, total: u32)
    returns (r: Status)
    ensures r == Verdict(ChunkOk(result, offset, count, size, capacity, total))
  {
    if !ValidEnum(AsInt(result), 0, MAX_RESULT) {
      return Error;
    }
    if size > capacity {
      return Error;
    }
    if count > size {
      return Error;
    }
    if !ValidSpan(offset, count, total) {
      return Error;
    }
    return Success;
  }

  method ValidateReleasePin(lease: Option<Lease>, resource: u32, instance: u32) returns (r: Status)
    ensures r == Verdict(Acceptable(ReleasePin(lease, resource, instance)))
  {
    if lease.Some? {
      r := ValidateLease(lease);
      return;
    }
    if !ValidEnum(AsInt(resource), 0, MAX_RESOURCE) {
      return Error;
    }
    return Success;
  }

  method ValidateRuntimeConfig(operation: Operation) returns (r: Status)
    ensures r == Verdict(Acceptable(SetRuntimeConfig(operation)))
  {
    match operation {
      case Update(persisted, _, _) =>
        if persisted.Some? && !ValidEnum(AsInt(persisted.value), 0, MAX_RUNTIME) {
          return Error;
        }
        return Success;
      case OpenPairingWindow(_) =>
        return Success;
      case ClearBonds(_) =>
        return Success;
      case NoOperation =>
        return Error;
    }
  }

  method ValidateTransferResult(result: u32, size: u32, lease: Option<Lease>, read: u32) returns (r: Status)
    ensures forall written: u32 :: r == Verdict(Acceptable(I2cResult(result, size, lease, written, read)))
    ensures forall written: u32 :: r == Verdict(Acceptable(SpiResult(result, size, lease, written, read)))
  {
    if !ValidEnum(AsInt(result), 0, MAX_RESULT) {
      return Error;
    }
    if size > TRANSFER_CAPACITY {
      return Error;
    }
    if read > size {
      return Error;
    }
    r := ValidateLease(lease);
  }

  method ValidateSensorSample(sensorId: u32, sequence: u32, timestamp: u64, status: bv32, valueCount: u32)
    returns (r: Status)
    ensures r == Verdict(Acceptable(SensorSample(sensorId, sequence, timestamp, status as int, valueCount)))
  {
    if valueCount > 10 {
      return Error;
    }
    StatusMask(status);
    StatusNumber(status);
    if status & !(0x40 | 0x20 | 0x10 | 0x08 | 0x04 | 0x02 | 0x01) != 0 {
      return Error;
    }
    return Success;
  }
}

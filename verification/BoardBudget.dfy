/** Every Board value the validators accept fits the transport: the 1019-byte message limit and an
    empty send queue. */
module BoardBudget {
  import opened Types
  import opened BoardMessages
  import opened BoardSize
  import Varint
  import TransportModel
  import Framing

  const ALL_ONES: u32 := 0xffff_ffff

  lemma BusWithin(m: Board)
    requires IsBus(m) && BusOk(m)
    ensures BusBody(m) <= Stated(m)
  {
    hide UInt, SInt, Bool, Blob, Delimited, BoardSize.Text, LeaseField, Always;
    hide ProfileOk, LeaseOk, Terminated, DescriptorOk;
  }

  lemma ControlWithin(m: Board)
    requires IsControl(m) && ControlOk(m)
    requires m.ReleasePin? ==> m.resource < 0x80
    ensures ControlBody(m) <= Stated(m)
  {
    hide UInt, SInt, Bool, Blob, Delimited, BoardSize.Text, LeaseField, Always;
    hide ProfileOk, LeaseOk, Terminated, DescriptorOk;
    if m.RemoteProfileSet? && m.profile.Some? { ProfileBound(m.profile.value); }
  }

  lemma ReportWithin(m: Board)
    requires IsReport(m) && ReportOk(m)
    ensures ReportBody(m) <= Stated(m)
  {
    hide UInt, SInt, Bool, Blob, Delimited, BoardSize.Text, LeaseField, Always;
    hide ProfileOk, LeaseOk, Terminated, DescriptorOk;
    if m.SensorDescriptor? && m.descriptor.Some? { DescriptorBound(m.descriptor.value); }
  }

  lemma OutcomeWithin(m: Board)
    requires IsOutcome(m) && OutcomeOk(m)
    ensures OutcomeBody(m) <= Stated(m)
  {
    hide UInt, SInt, Bool, Blob, Delimited, BoardSize.Text, LeaseField, Always;
    hide ProfileOk, LeaseOk, Terminated, DescriptorOk;
    if m.RemoteProfile? && m.profile.Some? { ProfileBound(m.profile.value); }
  }

  lemma EventWithin(m: Board)
    requires IsEvent(m) && EventOk(m)
    ensures EventBody(m) <= Stated(m)
  {
    hide UInt, SInt, Bool, Blob, Delimited, BoardSize.Text, LeaseField, Always;
    hide ProfileOk, LeaseOk, Terminated, DescriptorOk;
  }

  /** An accepted value is no larger than the generated header states for its message. The lease of
      release_pin suspends the range test of `resource`, which then may need more than one byte. */
  lemma WithinStated(m: Board)
    requires Acceptable(m)
    requires m.ReleasePin? ==> m.resource < 0x80
    ensures Body(m) <= Stated(m)
  {
    assert !IsBus(m) && !IsControl(m) && !IsReport(m) && !IsOutcome(m) ==> IsEvent(m);
    hide Stated, IsBus, IsControl, IsReport, IsOutcome, IsEvent;
    hide BusBody, ControlBody, ReportBody, OutcomeBody, EventBody;
    hide BusOk, ControlOk, ReportOk, OutcomeOk, EventOk;
    if IsBus(m) {
      BusWithin(m);
    } else if IsControl(m) {
      ControlWithin(m);
    } else if IsReport(m) {
      ReportWithin(m);
    } else if IsOutcome(m) {
      OutcomeWithin(m);
    } else {
      EventWithin(m);
    }
  }

  lemma ReleasePinBound(lease: Option<Lease>, resource: u32, instance: u32)
    requires LeaseOk(lease)
    ensures Body(ReleasePin(lease, resource, instance)) <= 34
  {
  }

  lemma LargestFields()
    ensures UInt(ALL_ONES) == 6
    ensures forall n: u32 :: 0x80 <= n ==> UInt(n) >= 3
    ensures UInt(1) == 2 && UInt(LOG_CAPACITY) == 3 && Blob(LOG_CAPACITY) == LOG_CAPACITY + 3
  {
  }

  lemma WideLease()
    ensures LeaseField(Some(Lease(1, ALL_ONES, ALL_ONES, ALL_ONES))) == 22
  {
  }

  /** The stated maximum of release_pin holds for a given `resource` and every lease and instance
      exactly when `resource` is below 128. */
  lemma ReleasePinExactly(resource: u32)
    ensures (forall lease: Option<Lease>, instance: u32 ::
               Acceptable(ReleasePin(lease, resource, instance)) ==>
                 Body(ReleasePin(lease, resource, instance)) <= Stated(ReleasePin(lease, resource, instance)))
       <==> resource < 0x80
  {
    if resource < 0x80 {
      forall lease: Option<Lease>, instance: u32 | Acceptable(ReleasePin(lease, resource, instance))
        ensures Body(ReleasePin(lease, resource, instance)) <= Stated(ReleasePin(lease, resource, instance))
      {
        WithinStated(ReleasePin(lease, resource, instance));
      }
    } else {
      var lease := Some(Lease(1, ALL_ONES, ALL_ONES, ALL_ONES));
      WideLease();
      LargestFields();
      var m := ReleasePin(lease, resource, ALL_ONES);
      assert Acceptable(m);
      assert Body(m) >= 31;
    }
  }

  /** In a log chunk the byte count is bounded too, which the stated maximum does not use. */
  lemma LogChunkBound(m: Board)
    requires m.LogChunk? && Acceptable(m)
    ensures Body(m) <= 934
  {
    hide UInt, Bool, Blob;
    match m
    case LogChunk(_, _, _, count, size, _, _, _) =>
      assert UInt(count) <= 3 && Blob(size) <= 903;
  }

  lemma OthersBound(m: Board)
    requires !m.LogChunk? && Acceptable(m)
    ensures Body(m) <= 831
  {
    if m.ReleasePin? {
      ReleasePinBound(m.lease, m.resource, m.instance);
    } else {
      WithinStated(m);
      hide Body;
    }
  }

  /** The encoded size of any accepted value, as a Board message and as a top-level message. The
      generated header states 947 and 950. */
  lemma Budget(requestId: u32, m: Board)
    requires Acceptable(m)
    ensures BoardMessage(requestId, m) <= 944
    ensures TopLevel(requestId, m) <= 947
  {
    if m.LogChunk? {
      LogChunkBound(m);
    } else {
      OthersBound(m);
    }
    hide Body, TagOf, UInt, Delimited;
  }

  /** These bounds are attained, by a full log chunk. */
  lemma BudgetReached() returns (m: Board)
    ensures Acceptable(m)
    ensures BoardMessage(ALL_ONES, m) == 944 && TopLevel(ALL_ONES, m) == 947
  {
    m := LogChunk(ALL_ONES, ALL_ONES, ALL_ONES - 900, 900, 900, true, ALL_ONES, 1);
    LargestFields();
    Varint.SizeBounds(ALL_ONES - 900);
    assert Body(m) == 934;
    Varint.SizeBounds(934);
    assert BoardMessage(ALL_ONES, m) == 944;
    Varint.SizeBounds(944);
  }

  /** So the encoding of an accepted value is always taken by an empty send queue. */
  lemma FitsEmptyQueue(requestId: u32, m: Board, encoding: seq<byte>, e: TransportModel.Endpoint,
                       cfg: TransportModel.Config, inlineDone: bool, schedule: seq<seq<TransportModel.Irq>>)
    requires Acceptable(m) && |encoding| == TopLevel(requestId, m)
    requires TransportModel.ValidConfig(cfg) && TransportModel.Inv(e, cfg) && e.tx == []
    ensures |Framing.Frame(encoding)| <= 951
    ensures TransportModel.SendMessage(e, cfg, Some(encoding), inlineDone, schedule).1 == Success
  {
    Budget(requestId, m);
    TransportModel.EmptyQueueAccepts(e, cfg, encoding, inlineDone, schedule);
  }
}

/** The send ring shared by send_message, which pushes, and send_pending, which copies and skips:
    every access to head, tail or a data byte is a step of its own, so a drain may run, in whole or in
    part, between the space test, the data write and the head write of one push. */
module SpscTx {
  import opened Types
  import opened Framing
  import opened SharedRing
  import opened TransportModel

  /** whad_transport_send_message. Between the two space tests its own send_pending may run, which is
      a run of the drainer like any other. */
  datatype Sender =
    | SIdle
    | SReserve(m: seq<byte>)                       // first space test
    | SRetest(m: seq<byte>)                        // second space test
    | SPushing(left: seq<byte>, pushed: nat)       // the push loops

  /** whad_transport_send_pending. */
  datatype Drainer =
    | DIdle
    | DSize                                        // how much is queued?
    | DCopyCheck(n: nat)                           // size test inside ringbuf_copy
    | DCopying(n: nat, got: seq<byte>)             // memcpy, byte by byte
    | DCall(chunk: seq<byte>)                      // set the state and call back
    | DSkipCheck(n: nat)                           // size test inside ringbuf_skip
    | DSkipWrite(n: nat)                           // advance tail

  /** `broken`: a size test inside copy or skip has failed; `rolledBack`: a push has failed. */
  datatype Shared = Shared(
    ring: Ring, push: Push, sender: Sender, drainer: Drainer, state: TxState,
    chunks: seq<seq<byte>>, completions: nat, accepted: seq<seq<byte>>, broken: bool, rolledBack: bool)

  function Accept(s: Shared, m: seq<byte>): Shared {
    s.(sender := SPushing(Frame(m), 0), accepted := s.accepted + [m])
  }

  predicate HasSpace(s: Shared, m: seq<byte>) {
    RING_CAPACITY - Size(s.ring) >= |m| + HEADER_SIZE
  }

  /** One sender step; `m` is the message when a call begins. */
  function SendStep(s: Shared, m: seq<byte>): Shared
    requires WellFormed(s.ring)
  {
    match s.sender
    case SIdle => if |m| > MAX_PAYLOAD then s else s.(sender := SReserve(m))
    case SReserve(n) => if HasSpace(s, n) then Accept(s, n) else s.(sender := SRetest(n))
    case SRetest(n) => if HasSpace(s, n) then Accept(s, n) else s.(sender := SIdle)
    case SPushing(left, pushed) =>
      if left == [] then s.(sender := SIdle)
      else
        var (r, q) := PushStep(s.ring, s.push, left[0]);
        var t := s.(ring := r, push := q);
        if s.push.PIdle? && q.PIdle? then t.(sender := SIdle, rolledBack := true)
        else if s.push.PWritten? then t.(sender := SPushing(left[1..], pushed + 1))
        else t
  }

  /** One drainer step; `inlineDone`: the callback reports completion before it returns. */
  function DrainStep(s: Shared, cfg: Config, inlineDone: bool): Shared
    requires WellFormed(s.ring) && cfg.maxTx >= 1
  {
    match s.drainer
    case DIdle => if s.state == Idle && cfg.hasCallback then s.(drainer := DSize) else s
    case DSize =>
      var size := Size(s.ring);
      s.(drainer := if size > 0 then DCopyCheck(Min(size, cfg.maxTx)) else DIdle)
    case DCopyCheck(n) =>
      if n > Size(s.ring) then s.(broken := true, drainer := DIdle) else s.(drainer := DCopying(n, []))
    case DCopying(n, got) =>
      s.(drainer := if |got| < n then DCopying(n, got + [Peek(s.ring, |got|)]) else DCall(got))
    case DCall(chunk) =>
      var t := s.(drainer := DSkipCheck(|chunk|), chunks := s.chunks + [chunk]);
      if inlineDone then t.(state := Idle, completions := s.completions + 1) else t.(state := Sending)
    case DSkipCheck(n) =>
      if Size(s.ring) < n then s.(broken := true, drainer := DIdle) else s.(drainer := DSkipWrite(n))
    case DSkipWrite(n) => s.(drainer := DIdle, ring := Take(s.ring, n))
  }

  function DoneStep(s: Shared): Shared {
    if s.state == Sending then s.(state := Idle, completions := s.completions + 1) else s
  }

  // ---------------------------------------------------------------- invariant

  /** What a send_message call in progress has still to publish. */
  function Left(sender: Sender): seq<byte> {
    if sender.SPushing? then sender.left else []
  }

  /** A push in progress is of the next byte of the frame. */
  ghost predicate SenderOk(sender: Sender, push: Push) {
    && (!push.PIdle? ==> Left(sender) != [] && push.b == Left(sender)[0])
    && (sender.SReserve? || sender.SRetest? ==> |sender.m| <= MAX_PAYLOAD)
  }

  /** How far the wire is ahead of tail: by the chunk handed over and not yet skipped. */
  function Ahead(drainer: Drainer): nat {
    match drainer
    case DSkipCheck(n) => n
    case DSkipWrite(n) => n
    case _ => 0
  }

  /** What a drain in progress has read is what is queued; no other transmission is under way. */
  ghost predicate DrainerOk(drainer: Drainer, stream: seq<byte>, taken: nat, cfg: Config, state: TxState)
    requires taken <= |stream|
  {
    var queued := stream[taken..];
    match drainer
    case DIdle => true
    case DSize => state == Idle && cfg.hasCallback
    case DCopyCheck(n) => state == Idle && 1 <= n <= cfg.maxTx && n <= |queued|
    case DCopying(n, got) => state == Idle && 1 <= n <= cfg.maxTx && n <= |queued| && got <= queued[..n]
    case DCall(chunk) => state == Idle && 1 <= |chunk| <= cfg.maxTx && chunk <= queued
    case DSkipCheck(n) => n <= |queued|
    case DSkipWrite(n) => n <= |queued|
  }

  /** At most one chunk is in flight, exactly while the state is Sending, and each has a legal size. */
  ghost predicate ChunksOk(chunks: seq<seq<byte>>, completions: nat, state: TxState, cfg: Config) {
    && |chunks| - completions == (if state == Sending then 1 else 0)
    && forall i | 0 <= i < |chunks| :: ValidChunk(cfg, chunks[i])
  }

  /** The reservation holds throughout: what is queued and what is left to push fit the ring. */
  ghost predicate TxInv(s: Shared, cfg: Config) {
    && ValidConfig(cfg)
    && RingHolds(s.ring) && PushOk(s.ring, s.push)
    && SenderOk(s.sender, s.push)
    && |s.ring.stream| - s.ring.taken + |Left(s.sender)| <= RING_CAPACITY
    && s.ring.stream + Left(s.sender) == Frames(s.accepted)
    && AllFit(s.accepted)
    && DrainerOk(s.drainer, s.ring.stream, s.ring.taken, cfg, s.state)
    && s.ring.taken + Ahead(s.drainer) <= |s.ring.stream|
    && Flatten(s.chunks) == s.ring.stream[..s.ring.taken + Ahead(s.drainer)]
    && ChunksOk(s.chunks, s.completions, s.state, cfg)
    && !s.broken && !s.rolledBack
  }

  function Fresh(data: seq<byte>): Shared {
    Shared(Empty(data), PIdle, SIdle, DIdle, Idle, [], 0, [], false, false)
  }

  lemma FreshInv(data: seq<byte>, cfg: Config)
    requires |data| == RING_SLOTS && ValidConfig(cfg)
    ensures TxInv(Fresh(data), cfg)
  {
  }

  // ---------------------------------------------------------------- sender steps

  lemma AcceptKeeps(s: Shared, cfg: Config, m: seq<byte>)
    requires TxInv(s, cfg) && Left(s.sender) == [] && |m| <= MAX_PAYLOAD && HasSpace(s, m)
    ensures TxInv(Accept(s, m), cfg)
  {
    SizeIsQueued(s.ring);
    hide RingHolds, PushOk, DrainerOk, ChunksOk, Size, Frame;
    FramesAppend(s.accepted, [m]);
    assert Frames([m]) == Frame(m) + [] == Frame(m);
    assert s.ring.stream + [] == s.ring.stream;
  }

  lemma DrainerOkLater(drainer: Drainer, stream: seq<byte>, taken: nat, cfg: Config, state: TxState, b: byte)
    requires taken <= |stream| && DrainerOk(drainer, stream, taken, cfg, state)
    ensures DrainerOk(drainer, stream + [b], taken, cfg, state)
  {
    assert (stream + [b])[taken..] == stream[taken..] + [b];
    if drainer.DCopying? {
      assert (stream + [b])[taken..][..drainer.n] == stream[taken..][..drainer.n];
    }
  }

  /** The space test and the data write publish nothing; in particular the space test succeeds. */
  lemma PushPreparesKeeps(s: Shared, cfg: Config)
    requires TxInv(s, cfg) && Left(s.sender) != [] && !s.push.PWritten?
    ensures TxInv(SendStep(s, []), cfg)
  {
    PushStepHolds(s.ring, s.push, s.sender.left[0]);
    SizeIsQueued(s.ring);
    hide RingHolds, PushOk, DrainerOk, ChunksOk, Frames, Flatten, AllFit;
  }

  lemma PublishMoves(stream: seq<byte>, left: seq<byte>, k: nat)
    requires left != [] && k <= |stream|
    ensures (stream + [left[0]])[..k] == stream[..k]
    ensures stream + [left[0]] + left[1..] == stream + left
  {
    assert [left[0]] + left[1..] == left;
  }

  /** The head write moves one byte from what is left to the stream. */
  lemma PushPublishesKeeps(s: Shared, cfg: Config)
    requires TxInv(s, cfg) && Left(s.sender) != [] && s.push.PWritten?
    ensures TxInv(SendStep(s, []), cfg)
  {
    var left, stream := s.sender.left, s.ring.stream;
    PushStepHolds(s.ring, s.push, left[0]);
    DrainerOkLater(s.drainer, stream, s.ring.taken, cfg, s.state, s.push.b);
    hide RingHolds, PushOk, DrainerOk, ChunksOk, Size, Frames, Flatten, AllFit, PushStep;
    PublishMoves(stream, left, s.ring.taken + Ahead(s.drainer));
    hide Ahead;
  }

  /** Every access of a push keeps the invariant. */
  lemma PushKeeps(s: Shared, cfg: Config)
    requires TxInv(s, cfg) && Left(s.sender) != []
    ensures TxInv(SendStep(s, []), cfg)
  {
    hide TxInv, SendStep;
    if s.push.PWritten? {
      PushPublishesKeeps(s, cfg);
    } else {
      PushPreparesKeeps(s, cfg);
    }
  }

  /** A call that has not begun to push changes neither ring nor chunks. */
  lemma WaitingKeeps(s: Shared, cfg: Config, sender: Sender)
    requires TxInv(s, cfg) && Left(s.sender) == []
    requires Left(sender) == [] && (sender.SReserve? || sender.SRetest? ==> |sender.m| <= MAX_PAYLOAD)
    ensures TxInv(s.(sender := sender), cfg)
  {
    hide RingHolds, PushOk, DrainerOk, ChunksOk, Frames, Flatten, AllFit;
  }

  lemma SendStepKeeps(s: Shared, cfg: Config, m: seq<byte>)
    requires TxInv(s, cfg)
    ensures TxInv(SendStep(s, m), cfg)
  {
    var sender := SendStep(s, m).sender;
    match s.sender
    case SIdle =>
      WaitingKeeps(s, cfg, sender);
    case SPushing(left, _) =>
      if left != [] {
        PushKeeps(s, cfg);
        assert SendStep(s, m) == SendStep(s, []);
      } else {
        WaitingKeeps(s, cfg, sender);
      }
    case _ =>
      if HasSpace(s, s.sender.m) {
        AcceptKeeps(s, cfg, s.sender.m);
      } else {
        WaitingKeeps(s, cfg, sender);
      }
  }

  // ---------------------------------------------------------------- drainer steps

  /** A byte copied out of the ring is the next queued one. */
  lemma CopyOk(s: Shared, cfg: Config, inlineDone: bool)
    requires TxInv(s, cfg) && s.drainer.DCopying?
    ensures var t := DrainStep(s, cfg, inlineDone);
            !t.broken && DrainerOk(t.drainer, s.ring.stream, s.ring.taken, cfg, s.state)
  {
    if |s.drainer.got| < s.drainer.n {
      PeekIsStream(s.ring, |s.drainer.got|);
    }
    hide Peek, PushOk, SenderOk, ChunksOk, Frames, Flatten, AllFit;
  }

  /** Every size test inside copy and skip succeeds. */
  lemma SizeTestOk(s: Shared, cfg: Config, inlineDone: bool)
    requires TxInv(s, cfg) && !s.drainer.DCopying? && !s.drainer.DCall? && !s.drainer.DSkipWrite?
    ensures var t := DrainStep(s, cfg, inlineDone);
            !t.broken && DrainerOk(t.drainer, s.ring.stream, s.ring.taken, cfg, s.state)
  {
    SizeIsQueued(s.ring);
    hide Size, PushOk, SenderOk, ChunksOk, Frames, Flatten, AllFit;
  }

  /** A drain that only reads changes nothing but itself. */
  lemma ReadingKeeps(s: Shared, cfg: Config, drainer: Drainer)
    requires TxInv(s, cfg) && Ahead(s.drainer) == Ahead(drainer)
    requires DrainerOk(drainer, s.ring.stream, s.ring.taken, cfg, s.state)
    ensures TxInv(s.(drainer := drainer), cfg)
  {
    hide RingHolds, PushOk, DrainerOk, ChunksOk, Frames, Flatten, AllFit, SenderOk, Ahead;
  }

  /** Reading moves the drain on and touches nothing else. */
  lemma ReadsOnly(s: Shared, cfg: Config, inlineDone: bool)
    requires WellFormed(s.ring) && cfg.maxTx >= 1 && !s.drainer.DCall? && !s.drainer.DSkipWrite?
    requires !s.broken && !DrainStep(s, cfg, inlineDone).broken
    ensures DrainStep(s, cfg, inlineDone) == s.(drainer := DrainStep(s, cfg, inlineDone).drainer)
    ensures Ahead(DrainStep(s, cfg, inlineDone).drainer) == Ahead(s.drainer)
  {
    hide Size, Peek;
  }

  lemma DrainReadKeeps(s: Shared, cfg: Config, inlineDone: bool)
    requires TxInv(s, cfg) && !s.drainer.DCall? && !s.drainer.DSkipWrite?
    ensures TxInv(DrainStep(s, cfg, inlineDone), cfg)
  {
    if s.drainer.DCopying? {
      CopyOk(s, cfg, inlineDone);
    } else {
      SizeTestOk(s, cfg, inlineDone);
    }
    ReadsOnly(s, cfg, inlineDone);
    hide TxInv, DrainerOk, Ahead, DrainStep, RingHolds;
    ReadingKeeps(s, cfg, DrainStep(s, cfg, inlineDone).drainer);
  }

  lemma ChunkIsNext(stream: seq<byte>, taken: nat, chunk: seq<byte>)
    requires taken <= |stream| && chunk <= stream[taken..]
    ensures stream[..taken] + chunk == stream[..taken + |chunk|]
  {
    assert chunk == stream[taken..][..|chunk|];
  }

  lemma ChunksOkCall(chunks: seq<seq<byte>>, completions: nat, cfg: Config, chunk: seq<byte>)
    requires ChunksOk(chunks, completions, Idle, cfg) && ValidChunk(cfg, chunk)
    ensures ChunksOk(chunks + [chunk], completions, Sending, cfg)
    ensures ChunksOk(chunks + [chunk], completions + 1, Idle, cfg)
  {
  }

  lemma CallKeeps(s: Shared, cfg: Config, inlineDone: bool)
    requires TxInv(s, cfg) && s.drainer.DCall?
    ensures TxInv(DrainStep(s, cfg, inlineDone), cfg)
  {
    var chunk, stream, taken := s.drainer.chunk, s.ring.stream, s.ring.taken;
    assert ValidChunk(cfg, chunk);
    hide RingHolds, PushOk, Size, Frames, Flatten, AllFit, SenderOk, ChunksOk;
    ChunksOkCall(s.chunks, s.completions, cfg, chunk);
    FlattenAppend(s.chunks, chunk);
    ChunkIsNext(stream, taken, chunk);
  }

  lemma SkipKeeps(s: Shared, cfg: Config, inlineDone: bool)
    requires TxInv(s, cfg) && s.drainer.DSkipWrite?
    ensures TxInv(DrainStep(s, cfg, inlineDone), cfg)
  {
    TakeHolds(s.ring, s.push, s.drainer.n);
    hide RingHolds, PushOk, Size, Frames, Flatten, AllFit, SenderOk, ChunksOk;
  }

  lemma DrainStepKeeps(s: Shared, cfg: Config, inlineDone: bool)
    requires TxInv(s, cfg)
    ensures TxInv(DrainStep(s, cfg, inlineDone), cfg)
  {
    hide TxInv, DrainStep;
    match s.drainer
    case DCall(_) => CallKeeps(s, cfg, inlineDone);
    case DSkipWrite(_) => SkipKeeps(s, cfg, inlineDone);
    case _ => DrainReadKeeps(s, cfg, inlineDone);
  }

  lemma DoneStepKeeps(s: Shared, cfg: Config)
    requires TxInv(s, cfg)
    ensures TxInv(DoneStep(s), cfg)
  {
    hide RingHolds, PushOk, Size, Frames, Flatten, AllFit, SenderOk;
  }

  // ---------------------------------------------------------------- calls of the model

  function Unsent(stream: seq<byte>, sent: nat): seq<byte> {
    if sent <= |stream| then stream[sent..] else []
  }

  /** The endpoint that the shared state stands for: a frame being pushed counts as queued, a chunk
      handed over as sent. */
  function Abs(s: Shared): Endpoint {
    Endpoint([], Unsent(s.ring.stream, s.ring.taken + Ahead(s.drainer)) + Left(s.sender),
             s.state, s.chunks, s.completions)
  }

  /** Handing the first n queued bytes to the callback. */
  function Handed(e: Endpoint, n: nat, inlineDone: bool): Endpoint {
    var k := Min(n, |e.tx|);
    var called := e.(tx := e.tx[k..], state := Sending, chunks := e.chunks + [e.tx[..k]]);
    if inlineDone then DataSent(called) else called
  }

  /** Where a drain in progress will leave the endpoint if nothing interferes. */
  function Goal(s: Shared, cfg: Config, inlineDone: bool): Endpoint
    requires cfg.maxTx >= 1
  {
    match s.drainer
    case DSize => SendPending(Abs(s), cfg, inlineDone).0
    case DCopyCheck(n) => Handed(Abs(s), n, inlineDone)
    case DCopying(n, _) => Handed(Abs(s), n, inlineDone)
    case DCall(chunk) => Handed(Abs(s), |chunk|, inlineDone)
    case _ => Abs(s)
  }

  function DrainStepsLeft(d: Drainer): int {
    match d
    case DIdle => 0
    case DSkipWrite(_) => 1
    case DSkipCheck(_) => 2
    case DCall(_) => 3
    case DCopying(n, got) => 4 + n - |got|
    case DCopyCheck(n) => 5 + n
    case DSize => 6 + RING_CAPACITY
  }

  /** Every access of a drain brings it closer to its end, whatever the sender does in between. */
  lemma DrainEnds(s: Shared, cfg: Config, inlineDone: bool)
    requires TxInv(s, cfg)
    ensures 0 <= DrainStepsLeft(s.drainer) <= 1029
    ensures s.drainer == DIdle <==> DrainStepsLeft(s.drainer) == 0
    ensures s.drainer != DIdle ==>
              DrainStepsLeft(DrainStep(s, cfg, inlineDone).drainer) < DrainStepsLeft(s.drainer)
  {
    SizeIsQueued(s.ring);
    hide PushOk, SenderOk, ChunksOk, Frames, Flatten, AllFit, Size, Peek;
  }

  /** With nothing left to push and no chunk handed over the endpoint's queue is the ring's. */
  lemma AbsAtRest(s: Shared, cfg: Config)
    requires TxInv(s, cfg) && Ahead(s.drainer) == 0 && Left(s.sender) == []
    ensures Abs(s) == Endpoint([], Unsent(s.ring.stream, s.ring.taken), s.state, s.chunks, s.completions)
    ensures |Abs(s).tx| == Size(s.ring)
  {
    SizeIsQueued(s.ring);
    hide PushOk, SenderOk, ChunksOk, DrainerOk, Frames, Flatten, AllFit, Size;
    assert Abs(s).tx == Unsent(s.ring.stream, s.ring.taken);
  }

  /** What the invariant says about a drain in progress. */
  lemma DrainerFacts(s: Shared, cfg: Config)
    requires TxInv(s, cfg)
    ensures WellFormed(s.ring) && cfg.maxTx >= 1 && s.ring.taken + Size(s.ring) == |s.ring.stream|
    ensures s.ring.taken + Ahead(s.drainer) <= |s.ring.stream|
    ensures s.drainer.DSize? ==> s.state == Idle && cfg.hasCallback
    ensures s.drainer.DCopyCheck? ==> s.drainer.n <= Size(s.ring)
    ensures s.drainer.DCopying? ==> |s.drainer.got| <= s.drainer.n
    ensures s.drainer.DCall? ==>
              s.state == Idle && |s.drainer.chunk| <= Size(s.ring) && s.drainer.chunk <= s.ring.stream[s.ring.taken..]
    ensures s.drainer.DSkipCheck? || s.drainer.DSkipWrite? ==> s.drainer.n <= Size(s.ring)
  {
    SizeIsQueued(s.ring);
    hide PushOk, SenderOk, ChunksOk, Frames, Flatten, AllFit, Size;
  }

  lemma SizeReadDecides(s: Shared, cfg: Config, inlineDone: bool)
    requires TxInv(s, cfg) && s.drainer.DSize? && Left(s.sender) == []
    ensures Goal(DrainStep(s, cfg, inlineDone), cfg, inlineDone) == Goal(s, cfg, inlineDone)
  {
    DrainerFacts(s, cfg);
    AbsAtRest(s, cfg);
    hide TxInv, Size, Unsent, Left, WellFormed;
    assert Abs(DrainStep(s, cfg, inlineDone)) == Abs(s);
    hide Abs;
  }

  lemma SameEndpoint(s: Shared, drainer: Drainer)
    requires Ahead(s.drainer) == Ahead(drainer)
    ensures Abs(s.(drainer := drainer)) == Abs(s)
  {
    hide Ahead;
  }

  lemma CopyChangesNothing(s: Shared, cfg: Config, inlineDone: bool)
    requires TxInv(s, cfg) && (s.drainer.DCopyCheck? || s.drainer.DCopying?)
    ensures Goal(DrainStep(s, cfg, inlineDone), cfg, inlineDone) == Goal(s, cfg, inlineDone)
  {
    DrainerFacts(s, cfg);
    hide TxInv, Size, Peek, Handed, Abs, WellFormed;
    var t := DrainStep(s, cfg, inlineDone);
    var n := s.drainer.n;
    assert t == s.(drainer := t.drainer);
    assert (t.drainer.DCopying? && t.drainer.n == n) || (t.drainer.DCall? && |t.drainer.chunk| == n);
    hide DrainStep;
    SameEndpoint(s, t.drainer);
  }

  lemma CallHandsOver(s: Shared, cfg: Config, inlineDone: bool)
    requires TxInv(s, cfg) && s.drainer.DCall? && Left(s.sender) == []
    ensures Goal(DrainStep(s, cfg, inlineDone), cfg, inlineDone) == Goal(s, cfg, inlineDone)
  {
    AbsAtRest(s, cfg);
    DrainerFacts(s, cfg);
    hide TxInv, Size;
    var t := DrainStep(s, cfg, inlineDone);
    var chunk, queued := s.drainer.chunk, s.ring.stream[s.ring.taken..];
    assert queued[..|chunk|] == chunk;
    assert queued[|chunk|..] == s.ring.stream[s.ring.taken + |chunk|..];
    assert Abs(t).tx == queued[|chunk|..];
  }

  lemma SkipChangesNothing(s: Shared, cfg: Config, inlineDone: bool)
    requires TxInv(s, cfg) && (s.drainer.DSkipCheck? || s.drainer.DSkipWrite?)
    ensures Goal(DrainStep(s, cfg, inlineDone), cfg, inlineDone) == Goal(s, cfg, inlineDone)
  {
    DrainerFacts(s, cfg);
    hide TxInv, Size, WellFormed, Unsent;
    var t := DrainStep(s, cfg, inlineDone);
    assert t.ring.stream == s.ring.stream && t.ring.taken + Ahead(t.drainer) == s.ring.taken + Ahead(s.drainer);
    assert t == s.(drainer := t.drainer, ring := t.ring) && !t.drainer.DSize?;
    hide DrainStep, Ahead;
  }

  lemma DrainOnly(s: Shared, cfg: Config, inlineDone: bool)
    requires WellFormed(s.ring) && cfg.maxTx >= 1
    ensures var t := DrainStep(s, cfg, inlineDone);
            t.sender == s.sender && t.push == s.push && t.accepted == s.accepted
  {
    hide Size, Peek;
  }

  /** No access of a drain changes where it leads. */
  lemma GoalKept(s: Shared, cfg: Config, inlineDone: bool)
    requires TxInv(s, cfg) && Left(s.sender) == []
    ensures TxInv(DrainStep(s, cfg, inlineDone), cfg)
    ensures s.drainer != DIdle ==> Goal(DrainStep(s, cfg, inlineDone), cfg, inlineDone) == Goal(s, cfg, inlineDone)
  {
    DrainStepKeeps(s, cfg, inlineDone);
    hide TxInv, Goal, DrainStep;
    match s.drainer
    case DIdle =>
    case DSize => SizeReadDecides(s, cfg, inlineDone);
    case DCopyCheck(_) => CopyChangesNothing(s, cfg, inlineDone);
    case DCopying(_, _) => CopyChangesNothing(s, cfg, inlineDone);
    case DCall(_) => CallHandsOver(s, cfg, inlineDone);
    case _ => SkipChangesNothing(s, cfg, inlineDone);
  }

  /** The rest of a drain, without interference. */
  ghost function DrainRest(s: Shared, cfg: Config, inlineDone: bool): (t: Shared)
    requires TxInv(s, cfg) && Left(s.sender) == []
    ensures TxInv(t, cfg) && t.drainer == DIdle && Abs(t) == Goal(s, cfg, inlineDone)
    ensures t.sender == s.sender && t.push == s.push && t.accepted == s.accepted
    decreases DrainStepsLeft(s.drainer)
  {
    DrainEnds(s, cfg, inlineDone);
    if s.drainer == DIdle then s
    else
      GoalKept(s, cfg, inlineDone);
      DrainOnly(s, cfg, inlineDone);
      DrainRest(DrainStep(s, cfg, inlineDone), cfg, inlineDone)
  }

  lemma DoneIsDataSent(s: Shared)
    ensures Abs(DoneStep(s)) == DataSent(Abs(s))
  {
  }

  function SendStepsLeft(sender: Sender, push: Push): int {
    match sender
    case SIdle => 0
    case SPushing(left, _) =>
      1 + 3 * |left| - (match push case PIdle => 0 case PChecked(_) => 1 case PWritten(_) => 2)
    case SRetest(m) => 2 + 3 * (|m| + HEADER_SIZE)
    case SReserve(m) => 3 + 3 * (|m| + HEADER_SIZE)
  }

  /** Every access of send_message brings the call closer to its end, whatever a drain does. */
  lemma SendEnds(s: Shared, cfg: Config, m: seq<byte>)
    requires TxInv(s, cfg)
    ensures 0 <= SendStepsLeft(s.sender, s.push)
    ensures s.sender == SIdle <==> SendStepsLeft(s.sender, s.push) == 0
    ensures var t := SendStep(s, m);
            s.sender != SIdle ==> SendStepsLeft(t.sender, t.push) < SendStepsLeft(s.sender, s.push)
  {
    SizeIsQueued(s.ring);
    hide ChunksOk, DrainerOk, Frames, Flatten, AllFit, Size, Ahead;
  }

  lemma PushMoves(stream: seq<byte>, left: seq<byte>, from: nat)
    requires left != [] && from <= |stream|
    ensures (stream + [left[0]])[from..] + left[1..] == stream[from..] + left
  {
    assert (stream + [left[0]])[from..] == stream[from..] + [left[0]];
    assert [left[0]] + left[1..] == left;
  }

  /** What an access of a push does to ring and sender: the head write moves one byte across. */
  lemma PushAccess(s: Shared, cfg: Config)
    requires TxInv(s, cfg) && Left(s.sender) != []
    ensures var (t, left) := (SendStep(s, []), s.sender.left);
            && t.ring.taken == s.ring.taken && t.sender.SPushing?
            && (s.push.PWritten? ==> t.ring.stream == s.ring.stream + [left[0]] && t.sender.left == left[1..])
            && (!s.push.PWritten? ==> t.ring.stream == s.ring.stream && t.sender.left == left)
            && t == s.(ring := t.ring, push := t.push, sender := t.sender)
  {
    SizeIsQueued(s.ring);
    PushStepHolds(s.ring, s.push, s.sender.left[0]);
    hide RingHolds, PushOk, ChunksOk, DrainerOk, Frames, Flatten, AllFit, Size, Ahead;
  }

  lemma AbsAfterPush(s: Shared, t: Shared)
    requires s.sender.SPushing? && t.sender.SPushing? && s.sender.left != []
    requires s.ring.taken + Ahead(s.drainer) <= |s.ring.stream|
    requires t == s.(ring := t.ring, push := t.push, sender := t.sender) && t.ring.taken == s.ring.taken
    requires || (t.ring.stream == s.ring.stream + [s.sender.left[0]] && t.sender.left == s.sender.left[1..])
             || (t.ring.stream == s.ring.stream && t.sender.left == s.sender.left)
    ensures Abs(t) == Abs(s)
  {
    PushMoves(s.ring.stream, s.sender.left, s.ring.taken + Ahead(s.drainer));
    hide Ahead;
  }

  /** Pushing changes nothing for the endpoint, which has counted the frame as queued already. */
  lemma PushIsStutter(s: Shared, cfg: Config)
    requires TxInv(s, cfg) && s.sender.SPushing?
    ensures TxInv(SendStep(s, []), cfg)
    ensures var t := SendStep(s, []);
            && (t.sender == SIdle || t.sender.SPushing?)
            && Abs(t) == Abs(s) && t.accepted == s.accepted && t.drainer == s.drainer
  {
    SendStepKeeps(s, cfg, []);
    DrainerFacts(s, cfg);
    var t := SendStep(s, []);
    if s.sender.left != [] {
      PushAccess(s, cfg);
      hide TxInv, SendStep, Ahead, Abs, WellFormed, Size;
      AbsAfterPush(s, t);
    } else {
      assert t == s.(sender := SIdle);
      hide TxInv, SendStep, Ahead, Unsent, WellFormed, Size;
    }
  }

  /** The rest of the push loops, without interference. */
  ghost function PushRest(s: Shared, cfg: Config): (t: Shared)
    requires TxInv(s, cfg) && (s.sender == SIdle || s.sender.SPushing?)
    ensures TxInv(t, cfg) && t.sender == SIdle && t.push == PIdle && t.drainer == s.drainer
    ensures Abs(t) == Abs(s) && t.accepted == s.accepted
    decreases SendStepsLeft(s.sender, s.push)
  {
    SendEnds(s, cfg, []);
    if s.sender == SIdle then s
    else
      PushIsStutter(s, cfg);
      PushRest(SendStep(s, []), cfg)
  }

  /** A space test accepts the message exactly when its frame fits beside what is queued. */
  lemma TestDecides(s: Shared, cfg: Config)
    requires TxInv(s, cfg) && s.drainer == DIdle && (s.sender.SReserve? || s.sender.SRetest?)
    ensures SendStep(s, []) ==
            if Abs(s).TxFree() >= |s.sender.m| + HEADER_SIZE
            then s.(sender := SPushing(Frame(s.sender.m), 0), accepted := s.accepted + [s.sender.m])
            else s.(sender := if s.sender.SReserve? then SRetest(s.sender.m) else SIdle)
  {
    AbsAtRest(s, cfg);
    hide Frame, Size, Abs;
  }

  lemma AbsAfterTest(s: Shared, left: seq<byte>, sender: Sender, accepted: seq<seq<byte>>)
    requires Left(s.sender) == [] && Left(sender) == left
    ensures Abs(s.(sender := sender, accepted := accepted)) == Abs(s).(tx := Abs(s).tx + left)
  {
    hide Unsent, Left, Ahead;
  }

  /** The endpoint after a space test. */
  lemma AfterTest(s: Shared, cfg: Config)
    requires TxInv(s, cfg) && s.drainer == DIdle && (s.sender.SReserve? || s.sender.SRetest?)
    ensures var (t, e, m) := (SendStep(s, []), Abs(s), s.sender.m);
            && TxInv(t, cfg) && t.drainer == DIdle
            && (if e.TxFree() >= |m| + HEADER_SIZE
                then t.sender.SPushing? && t.accepted == s.accepted + [m] && Abs(t) == e.(tx := e.tx + Frame(m))
                else t.sender == (if s.sender.SReserve? then SRetest(m) else SIdle)
                     && t.accepted == s.accepted && Abs(t) == e)
  {
    SendStepKeeps(s, cfg, []);
    DrainerFacts(s, cfg);
    hide TxInv, Frame, WellFormed, Size, Abs;
    TestDecides(s, cfg);
    var t := SendStep(s, []);
    hide SendStep;
    AbsAfterTest(s, Left(t.sender), t.sender, t.accepted);
    assert Abs(s).tx + [] == Abs(s).tx;
  }

  /** One call of send_message that is alone with the ring: enter, first test, its own send_pending,
      second test, pushes. */
  ghost function SendCall(s: Shared, cfg: Config, m: seq<byte>, inlineDone: bool): (t: Shared)
    requires TxInv(s, cfg) && s.sender == SIdle && s.drainer == DIdle && |m| <= MAX_PAYLOAD
    ensures TxInv(t, cfg) && t.sender == SIdle && t.drainer == DIdle
  {
    SendStepKeeps(s, cfg, m);
    var a := SendStep(s, m);
    AfterTest(a, cfg);
    var b := SendStep(a, []);
    hide TxInv, SendStep, Abs;
    if b.sender.SRetest? then
      DrainStepKeeps(b, cfg, inlineDone);
      DrainOnly(b, cfg, inlineDone);
      var c := DrainRest(DrainStep(b, cfg, inlineDone), cfg, inlineDone);
      AfterTest(c, cfg);
      PushRest(SendStep(c, []), cfg)
    else PushRest(b, cfg)
  }

  lemma GoalAtStart(s: Shared, cfg: Config, inlineDone: bool)
    requires TxInv(s, cfg) && s.drainer == DIdle && Left(s.sender) == []
    ensures TxInv(DrainStep(s, cfg, inlineDone), cfg)
    ensures Goal(DrainStep(s, cfg, inlineDone), cfg, inlineDone) == SendPending(Abs(s), cfg, inlineDone).0
  {
    DrainStepKeeps(s, cfg, inlineDone);
    AbsAtRest(s, cfg);
    assert Abs(DrainStep(s, cfg, inlineDone)) == Abs(s);
  }

  /** A drain that is alone with the ring does to the endpoint what send_pending does in the model. */
  lemma DrainCallIsSendPending(s: Shared, cfg: Config, inlineDone: bool)
    requires TxInv(s, cfg) && s.drainer == DIdle && Left(s.sender) == []
    ensures TxInv(DrainStep(s, cfg, inlineDone), cfg) && Left(DrainStep(s, cfg, inlineDone).sender) == []
    ensures Abs(DrainRest(DrainStep(s, cfg, inlineDone), cfg, inlineDone)) == SendPending(Abs(s), cfg, inlineDone).0
  {
    GoalAtStart(s, cfg, inlineDone);
    DrainOnly(s, cfg, inlineDone);
    hide TxInv, DrainStep, Goal, Abs, SendPending;
  }

  /** The endpoint when a call of send_message reaches its pushes, or gives up. */
  lemma SendCallTests(s: Shared, cfg: Config, m: seq<byte>, inlineDone: bool)
    requires TxInv(s, cfg) && s.sender == SReserve(m) && s.drainer == DIdle
    ensures TxInv(SendStep(s, []), cfg)
    ensures var (e, b) := (Abs(s), SendStep(s, []));
            var f := if e.TxFree() >= |m| + HEADER_SIZE then e else SendPending(e, cfg, inlineDone).0;
            if e.TxFree() >= |m| + HEADER_SIZE
            then b.accepted == s.accepted + [m] && Abs(b) == f.(tx := f.tx + Frame(m))
            else
              && b.sender == SRetest(m) && b.drainer == DIdle && b.accepted == s.accepted
              && TxInv(DrainStep(b, cfg, inlineDone), cfg) && Left(DrainStep(b, cfg, inlineDone).sender) == []
              && var c := DrainRest(DrainStep(b, cfg, inlineDone), cfg, inlineDone);
                 c.sender == SRetest(m) && c.accepted == s.accepted && Abs(c) == f
  {
    AfterTest(s, cfg);
    var b := SendStep(s, []);
    hide TxInv, SendStep, Abs, Frame, SendPending, DrainStep;
    if b.sender.SRetest? {
      DrainCallIsSendPending(b, cfg, inlineDone);
      DrainerFacts(b, cfg);
      DrainOnly(b, cfg, inlineDone);
    }
  }

  lemma Enters(s: Shared, cfg: Config, m: seq<byte>)
    requires TxInv(s, cfg) && s.sender == SIdle && s.drainer == DIdle && |m| <= MAX_PAYLOAD
    ensures var a := SendStep(s, m);
            TxInv(a, cfg) && a == s.(sender := SReserve(m)) && Abs(a) == Abs(s)
  {
    SendStepKeeps(s, cfg, m);
    DrainerFacts(s, cfg);
    hide TxInv, Unsent, Size, WellFormed;
  }

  /** And a call of send_message what send_message does in the model, its answer included. */
  lemma SendCallIsSendMessage(s: Shared, cfg: Config, m: seq<byte>, inlineDone: bool)
    requires TxInv(s, cfg) && s.sender == SIdle && s.drainer == DIdle && |m| <= MAX_PAYLOAD
    ensures cfg.maxTx >= 1
    ensures var (f, r) := SendMessage(Abs(s), cfg, Some(m), inlineDone, []);
            var t := SendCall(s, cfg, m, inlineDone);
            Abs(t) == f && t.accepted == s.accepted + if r == Success then [m] else []
  {
    DrainerFacts(s, cfg);
    Enters(s, cfg, m);
    var a := SendStep(s, m);
    SendMessageUninterrupted(Abs(s), cfg, m, inlineDone);
    hide TxInv, SendStep, Abs, Frame, SendPending, SendMessage, DrainStep, Left, WellFormed, Size;
    SendCallTests(a, cfg, m, inlineDone);
    assert s.accepted + [] == s.accepted;
    var b := SendStep(a, []);
    if b.sender.SRetest? {
      AfterTest(DrainRest(DrainStep(b, cfg, inlineDone), cfg, inlineDone), cfg);
    }
  }

  // ---------------------------------------------------------------- every interleaving

  datatype Action = Sends(m: seq<byte>) | Drains(inlineDone: bool) | Completes

  function Next(s: Shared, cfg: Config, action: Action): Shared
    requires WellFormed(s.ring) && cfg.maxTx >= 1
  {
    match action
    case Sends(m) => SendStep(s, m)
    case Drains(inlineDone) => DrainStep(s, cfg, inlineDone)
    case Completes => DoneStep(s)
  }

  lemma NextKeeps(s: Shared, cfg: Config, action: Action)
    requires TxInv(s, cfg)
    ensures TxInv(Next(s, cfg, action), cfg)
  {
    hide TxInv, SendStep, DrainStep, DoneStep;
    match action
    case Sends(m) => SendStepKeeps(s, cfg, m);
    case Drains(inlineDone) => DrainStepKeeps(s, cfg, inlineDone);
    case Completes => DoneStepKeeps(s, cfg);
  }

  ghost function Run(s: Shared, cfg: Config, actions: seq<Action>): Shared
    requires TxInv(s, cfg)
    decreases |actions|
  {
    if actions == [] then s
    else
      NextKeeps(s, cfg, actions[0]);
      Run(Next(s, cfg, actions[0]), cfg, actions[1..])
  }

  lemma {:induction false} RunKeeps(s: Shared, cfg: Config, actions: seq<Action>)
    requires TxInv(s, cfg)
    ensures TxInv(Run(s, cfg, actions), cfg)
    decreases |actions|
  {
    if actions != [] {
      NextKeeps(s, cfg, actions[0]);
      RunKeeps(Next(s, cfg, actions[0]), cfg, actions[1..]);
    }
  }

  /** From a freshly initialised ring, in every reachable state of every interleaving: no push fails
      after its reservation, no size test inside copy or skip fails, at most one chunk is in flight
      and none is empty or too large, and the bytes on the wire are a prefix of the frames of the
      accepted messages, each whole and in order; all of them once sender and drainer have finished
      and the ring is empty. */
  lemma EveryInterleaving(data: seq<byte>, cfg: Config, actions: seq<Action>)
    requires |data| == RING_SLOTS && ValidConfig(cfg)
    ensures TxInv(Fresh(data), cfg)
    ensures var t := Run(Fresh(data), cfg, actions);
            && !t.rolledBack && !t.broken
            && ChunksOk(t.chunks, t.completions, t.state, cfg)
            && Flatten(t.chunks) <= Frames(t.accepted)
            && (t.sender == SIdle && t.drainer == DIdle && Size(t.ring) == 0 ==>
                  Flatten(t.chunks) == Frames(t.accepted))
  {
    FreshInv(data, cfg);
    RunKeeps(Fresh(data), cfg, actions);
    var t := Run(Fresh(data), cfg, actions);
    SizeIsQueued(t.ring);
    assert t.ring.stream <= Frames(t.accepted);
    assert t.ring.stream[..|t.ring.stream|] == t.ring.stream;
  }
}

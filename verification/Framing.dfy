/** Frames and the resynchronising receiver, as functions on an unbounded byte stream. */
module Framing {
  import opened Types

  const MAGIC0: byte := 0xAC
  const MAGIC1: byte := 0xBE

  /** The header fields `size & 0xff` and `(size >> 8) & 0xff` of a non-negative size. */
  function Header(size: nat): (h: seq<byte>)
    ensures |h| == HEADER_SIZE
  {
    [MAGIC0, MAGIC1, (size % 0x100) as byte, (size / 0x100 % 0x100) as byte]
  }

  function Frame(payload: seq<byte>): (f: seq<byte>)
    ensures |f| == |payload| + HEADER_SIZE
  {
    Header(|payload|) + payload
  }

  function Frames(payloads: seq<seq<byte>>): seq<byte> {
    if payloads == [] then [] else Frame(payloads[0]) + Frames(payloads[1..])
  }

  /** `header[2] | (header[3] << 8)`: the two bytes do not overlap, so `|` is a sum. */
  function AnnouncedSize(s: seq<byte>, at: nat): (n: nat)
    requires at + HEADER_SIZE <= |s|
    ensures n < 0x1_0000
  {
    s[at + 2] as int + 0x100 * s[at + 3] as int
  }

  predicate MagicAt(s: seq<byte>, at: nat)
    requires at + 1 < |s|
  {
    s[at] == MAGIC0 && s[at + 1] == MAGIC1
  }

  /** Position `at` starts a header that the receiver may accept. */
  predicate Admissible(s: seq<byte>, at: nat) {
    at + HEADER_SIZE <= |s| && MagicAt(s, at) && AnnouncedSize(s, at) <= MAX_PAYLOAD
  }

  /** What one call of get_message decides about the queued bytes. */
  datatype Decision =
    | Wait                          // not enough bytes yet
    | Discard(n: nat)               // no header here: drop n bytes
    | Reject                        // oversize header: drop one byte, report an error
    | TooSmall(needed: nat)         // complete header, destination buffer too small
    | Deliver(payload: seq<byte>)
  {
    function Consumed(): nat {
      match this
      case Wait => 0
      case Discard(n) => n
      case Reject => 1
      case TooSmall(_) => 0
      case Deliver(payload) => HEADER_SIZE + |payload|
    }

    function Messages(): seq<seq<byte>> {
      if Deliver? then [payload] else []
    }
  }

  /** The decision on queue `s` when the destination buffer holds `room` bytes. */
  function Decide(s: seq<byte>, room: int): (d: Decision)
    ensures d.Consumed() <= |s|
  {
    if |s| < HEADER_SIZE then Wait
    else if MagicAt(s, 0) then
      var size := AnnouncedSize(s, 0);
      if size > MAX_PAYLOAD then Reject
      else if room >= size then
        if |s| >= size + HEADER_SIZE then Deliver(s[HEADER_SIZE..HEADER_SIZE + size]) else Wait
      else TooSmall(size)
    else if s[1] == MAGIC0 then Discard(1)
    else Discard(2)
  }

  datatype Parsed = Parsed(messages: seq<seq<byte>>, rest: seq<byte>) {
    function After(earlier: seq<seq<byte>>): Parsed {
      Parsed(earlier + messages, rest)
    }

    lemma AfterAfter(a: seq<seq<byte>>, b: seq<seq<byte>>)
      ensures After(b).After(a) == After(a + b)
    {
      assert a + (b + messages) == a + b + messages;
    }
  }

  /** Polling a receiver with a full-size buffer until it neither delivers nor discards. */
  function Parse(s: seq<byte>): (p: Parsed)
    decreases |s|
  {
    var d := Decide(s, MAX_PAYLOAD);
    if d.Consumed() == 0 then Parsed([], s)
    else Parse(s[d.Consumed()..]).After(d.Messages())
  }

  // ---------------------------------------------------------------- single decisions

  /** A buffer of at least 1019 bytes never draws TooSmall, and its exact size does not matter. */
  lemma FullSizeBuffer(s: seq<byte>, room: int)
    requires room >= MAX_PAYLOAD
    ensures Decide(s, room) == Decide(s, MAX_PAYLOAD) && !Decide(s, room).TooSmall?
  {
  }

  /** Whatever the buffer, a decision that consumes bytes is the one a full-size buffer gets. */
  lemma AnyBuffer(s: seq<byte>, room: int)
    requires Decide(s, room).Consumed() > 0
    ensures Decide(s, MAX_PAYLOAD) == Decide(s, room)
  {
  }

  lemma MessagesConsume(s: seq<byte>, room: int)
    ensures Decide(s, room).Consumed() == 0 ==> Decide(s, room).Messages() == []
  {
  }

  /** Appending bytes never changes a decision that has been taken. */
  lemma DecisionStable(s: seq<byte>, t: seq<byte>, room: int)
    requires !Decide(s, room).Wait?
    ensures Decide(s + t, room) == Decide(s, room)
  {
  }

  // ---------------------------------------------------------------- what each answer means

  /** On the wire a header is the two magic bytes and the size, low byte first. */
  lemma HeaderBytes(s: seq<byte>, n: nat)
    requires n < 0x1_0000
    ensures Header(n) <= s <==>
              && |s| >= 4 && s[0] == 0xAC && s[1] == 0xBE
              && s[2] as int + 0x100 * s[3] as int == n
  {
    if |s| >= 4 && s[0] == 0xAC && s[1] == 0xBE && s[2] as int + 0x100 * s[3] as int == n {
      assert s[..4] == Header(n);
    }
  }

  lemma FrameStarts(m: seq<byte>, s: seq<byte>)
    ensures Frame(m) <= s <==> Header(|m|) <= s && m <= s[HEADER_SIZE..]
  {
    hide Header;
    if Header(|m|) <= s && m <= s[HEADER_SIZE..] {
      assert s == s[..HEADER_SIZE] + s[HEADER_SIZE..];
      assert Header(|m|) + m <= s;
    }
    if Frame(m) <= s {
      assert s[HEADER_SIZE..][..|m|] == Frame(m)[HEADER_SIZE..];
    }
  }

  /** A frame is delivered exactly when it is complete, legal, and fits the caller's buffer. */
  lemma DeliverExactly(s: seq<byte>, room: int, m: seq<byte>)
    ensures Decide(s, room) == Deliver(m) <==> |m| <= 1019 && |m| <= room && Frame(m) <= s
  {
    FrameStarts(m, s);
    if |m| <= MAX_PAYLOAD {
      HeaderBytes(s, |m|);
    }
    if |s| >= HEADER_SIZE {
      HeaderBytes(s, AnnouncedSize(s, 0));
    }
    hide Header;
  }

  /** The size of a legal frame is asked for exactly when the caller's buffer is smaller. */
  lemma TooSmallExactly(s: seq<byte>, room: int, n: nat)
    ensures Decide(s, room) == TooSmall(n) <==> n <= 1019 && room < n && Header(n) <= s
  {
    if n <= MAX_PAYLOAD {
      HeaderBytes(s, n);
    }
    if |s| >= HEADER_SIZE {
      HeaderBytes(s, AnnouncedSize(s, 0));
    }
    hide Header;
  }

  /** An error is reported for a header exactly when it announces more than 1019 bytes. */
  lemma RejectExactly(s: seq<byte>, room: int)
    ensures Decide(s, room).Reject? <==> exists n: nat :: 1019 < n < 0x1_0000 && Header(n) <= s
  {
    if |s| >= HEADER_SIZE {
      HeaderBytes(s, AnnouncedSize(s, 0));
    }
    if n: nat :| 1019 < n < 0x1_0000 && Header(n) <= s {
      HeaderBytes(s, n);
    }
    hide Header;
  }

  /** Four bytes that do not begin with the magic lose one byte when the second may begin a header,
      and otherwise two. */
  lemma DiscardExactly(s: seq<byte>, room: int, n: nat)
    ensures Decide(s, room) == Discard(n) <==>
              && |s| >= 4 && !([0xAC, 0xBE] <= s)
              && n == if s[1] == 0xAC then 1 else 2
  {
    if |s| >= 4 && MagicAt(s, 0) {
      assert s[..2] == [0xAC, 0xBE];
    }
  }

  /** A queue on which the receiver waits with a header in hand is the start of some frame. */
  lemma WaitIsFramePrefix(s: seq<byte>, room: int) returns (m: seq<byte>)
    requires |s| >= HEADER_SIZE
    requires Decide(s, room).Wait?
    ensures |m| <= MAX_PAYLOAD && |m| <= room && s < Frame(m)
  {
    var size := AnnouncedSize(s, 0);
    m := s[HEADER_SIZE..] + seq(size + HEADER_SIZE - |s|, _ => 0 as byte);
    assert |m| == size;
    assert Header(size) == s[..HEADER_SIZE];
    assert s == s[..HEADER_SIZE] + s[HEADER_SIZE..];
    assert Frame(m)[..|s|] == s;
  }

  lemma FramePrefixWaits(s: seq<byte>, m: seq<byte>, room: int)
    requires |s| >= HEADER_SIZE
    requires |m| <= MAX_PAYLOAD && |m| <= room && s < Frame(m)
    ensures Decide(s, room).Wait?
  {
    assert forall i | 0 <= i < HEADER_SIZE :: s[i] == Frame(m)[i] == Header(|m|)[i];
    assert AnnouncedSize(s, 0) == |m|;
  }

  /** The receiver waits exactly on a queue shorter than a header or on a proper prefix of a frame
      that the caller's buffer can hold. */
  lemma WaitExactly(s: seq<byte>, room: int)
    ensures Decide(s, room).Wait? <==>
              |s| < 4 || exists m: seq<byte> :: |m| <= 1019 && |m| <= room && s < Frame(m)
  {
    if |s| >= HEADER_SIZE {
      if Decide(s, room).Wait? {
        var m := WaitIsFramePrefix(s, room);
      }
      forall m: seq<byte> | |m| <= MAX_PAYLOAD && |m| <= room && s < Frame(m)
        ensures Decide(s, room).Wait?
      {
        FramePrefixWaits(s, m, room);
      }
    }
  }

  /** A queue on which the receiver waits leaves at least one slot of the ring free;
      so a full ring always shrinks. */
  lemma QuiescentFits(s: seq<byte>)
    requires Decide(s, MAX_PAYLOAD).Wait?
    ensures |s| < RING_CAPACITY
  {
  }

  lemma DecideFrame(m: seq<byte>, t: seq<byte>, room: int)
    requires |m| <= MAX_PAYLOAD
    ensures Decide(Frame(m) + t, room) == if room >= |m| then Deliver(m) else TooSmall(|m|)
    ensures (Frame(m) + t)[HEADER_SIZE + |m|..] == t
  {
  }

  /** No admissible header starts at a position that a single decision throws away. */
  lemma DiscardSound(s: seq<byte>, at: nat)
    requires Decide(s, MAX_PAYLOAD).Discard? || Decide(s, MAX_PAYLOAD).Reject?
    requires at < Decide(s, MAX_PAYLOAD).Consumed()
    ensures !Admissible(s, at)
  {
  }

  // ---------------------------------------------------------------- whole streams

  /** Nothing is left to do on what a parse leaves behind. */
  lemma {:induction false} RestQuiescent(s: seq<byte>)
    ensures Decide(Parse(s).rest, MAX_PAYLOAD).Wait?
    ensures |Parse(s).rest| < RING_CAPACITY
    decreases |s|
  {
    var d := Decide(s, MAX_PAYLOAD);
    if d.Consumed() == 0 {
      QuiescentFits(s);
    } else {
      RestQuiescent(s[d.Consumed()..]);
    }
  }

  /** One consuming decision, then the rest of the stream, with anything appended. */
  lemma ParseStep(s: seq<byte>, t: seq<byte>)
    requires Decide(s, MAX_PAYLOAD).Consumed() > 0
    ensures var d := Decide(s, MAX_PAYLOAD);
            Parse(s + t) == Parse(s[d.Consumed()..] + t).After(d.Messages())
  {
    DecisionStable(s, t, MAX_PAYLOAD);
    var n := Decide(s, MAX_PAYLOAD).Consumed();
    assert (s + t)[n..] == s[n..] + t;
  }

  /** Parsing is incremental: what has been parsed stays parsed, whatever follows. */
  lemma {:induction false} ParseAppend(s: seq<byte>, t: seq<byte>)
    ensures Parse(s + t) == Parse(Parse(s).rest + t).After(Parse(s).messages)
    decreases |s|
  {
    var d := Decide(s, MAX_PAYLOAD);
    if d.Consumed() > 0 {
      var u := s[d.Consumed()..];
      calc {
        Parse(s + t);
        { ParseStep(s, t); }
        Parse(u + t).After(d.Messages());
        { ParseAppend(u, t); }
        Parse(Parse(u).rest + t).After(Parse(u).messages).After(d.Messages());
        { Parse(Parse(u).rest + t).AfterAfter(d.Messages(), Parse(u).messages); }
        Parse(Parse(u).rest + t).After(d.Messages() + Parse(u).messages);
      }
    }
  }

  function Flatten(chunks: seq<seq<byte>>): seq<byte> {
    if chunks == [] then [] else chunks[0] + Flatten(chunks[1..])
  }

  lemma {:induction false} FlattenAppend(chunks: seq<seq<byte>>, c: seq<byte>)
    ensures Flatten(chunks + [c]) == Flatten(chunks) + c
  {
    if chunks == [] {
      assert [c][1..] == [];
    } else {
      assert (chunks + [c])[1..] == chunks[1..] + [c];
      FlattenAppend(chunks[1..], c);
    }
  }

  /** Parsing a stream that arrives in pieces, to quiescence after each piece. */
  function ParseChunks(queued: seq<byte>, chunks: seq<seq<byte>>): Parsed
    decreases |chunks|
  {
    if chunks == [] then Parsed([], queued)
    else
      var p := Parse(queued + chunks[0]);
      ParseChunks(p.rest, chunks[1..]).After(p.messages)
  }

  lemma ParseQuiescent(s: seq<byte>)
    requires Decide(s, MAX_PAYLOAD).Wait?
    ensures Parse(s) == Parsed([], s)
  {
  }

  lemma FlattenFirst(queued: seq<byte>, chunks: seq<seq<byte>>)
    ensures queued + Flatten(chunks) ==
            if chunks == [] then queued else queued + chunks[0] + Flatten(chunks[1..])
  {
  }

  /** How a stream is cut into pieces does not change its messages. */
  lemma {:induction false} ChunkingIrrelevant(queued: seq<byte>, chunks: seq<seq<byte>>)
    requires Decide(queued, MAX_PAYLOAD).Wait?
    ensures ParseChunks(queued, chunks) == Parse(queued + Flatten(chunks))
    decreases |chunks|
  {
    hide Decide, Parse, Flatten;
    FlattenFirst(queued, chunks);
    if chunks == [] {
      ParseQuiescent(queued);
    } else {
      var s := queued + chunks[0];
      RestQuiescent(s);
      ChunkingIrrelevant(Parse(s).rest, chunks[1..]);
      ParseAppend(s, Flatten(chunks[1..]));
    }
  }

  /** The number of consuming polls up to quiescence. */
  function Polls(s: seq<byte>): nat
    decreases |s|
  {
    var n := Decide(s, MAX_PAYLOAD).Consumed();
    if n == 0 then 0 else 1 + Polls(s[n..])
  }

  /** Every consuming poll removes at least one byte, so quiescence comes within |s| of them. */
  lemma {:induction false} PollsBounded(s: seq<byte>)
    ensures Polls(s) + |Parse(s).rest| <= |s|
    decreases |s|
  {
    var n := Decide(s, MAX_PAYLOAD).Consumed();
    if n > 0 {
      PollsBounded(s[n..]);
    }
  }

  // ---------------------------------------------------------------- round trip and resynchronisation

  lemma {:induction false} FramesAppend(ms: seq<seq<byte>>, ns: seq<seq<byte>>)
    ensures Frames(ms + ns) == Frames(ms) + Frames(ns)
  {
    if ms == [] {
      assert ms + ns == ns;
    } else {
      assert (ms + ns)[1..] == ms[1..] + ns;
      FramesAppend(ms[1..], ns);
    }
  }

  lemma ParseFrame(m: seq<byte>, t: seq<byte>)
    requires |m| <= MAX_PAYLOAD
    ensures Parse(Frame(m) + t) == Parse(t).After([m])
  {
    DecideFrame(m, t, MAX_PAYLOAD);
  }

  ghost predicate AllFit(ms: seq<seq<byte>>) {
    forall i | 0 <= i < |ms| :: |ms[i]| <= MAX_PAYLOAD
  }

  lemma FramesFirst(ms: seq<seq<byte>>, t: seq<byte>)
    ensures Frames(ms) + t == if ms == [] then t else Frame(ms[0]) + (Frames(ms[1..]) + t)
  {
    hide Frame;
  }

  /** The parser undoes the framer, whatever bytes follow. */
  lemma {:induction false} ParseFrames(ms: seq<seq<byte>>, t: seq<byte>)
    requires AllFit(ms)
    ensures Parse(Frames(ms) + t) == Parse(t).After(ms)
  {
    hide Parse, Frame, Frames;
    FramesFirst(ms, t);
    if ms != [] {
      ParseFrame(ms[0], Frames(ms[1..]) + t);
      ParseFrames(ms[1..], t);
      Parse(t).AfterAfter([ms[0]], ms[1..]);
      assert [ms[0]] + ms[1..] == ms;
    }
  }

  /** Frames can be told apart: equal streams carry equal payloads. */
  lemma FramesInjective(ms: seq<seq<byte>>, ns: seq<seq<byte>>)
    requires AllFit(ms) && AllFit(ns)
    requires Frames(ms) == Frames(ns)
    ensures ms == ns
  {
    ParseFrames(ms, []);
    ParseFrames(ns, []);
    assert Frames(ms) + [] == Frames(ms) && Frames(ns) + [] == Frames(ns);
    assert ms + Parse([]).messages == ms && ns + Parse([]).messages == ns;
  }

  ghost predicate NoStartIn(g: seq<byte>, m: seq<byte>) {
    forall i | 0 <= i < |g| :: !Admissible(g + Frame(m), i)
  }

  /** Before a frame the receiver discards one or two bytes of garbage and never touches the frame. */
  lemma GarbageStep(g: seq<byte>, m: seq<byte>, t: seq<byte>)
    requires |m| <= MAX_PAYLOAD
    requires g != [] && NoStartIn(g, m)
    ensures var d := Decide(g + Frame(m) + t, MAX_PAYLOAD);
            1 <= d.Consumed() <= |g| && d.Messages() == []
  {
    var f := g + Frame(m);
    var s := f + t;
    assert forall i | 0 <= i < |f| :: s[i] == f[i];
    assert s[|g|] == Frame(m)[0] == MAGIC0;
    assert !Admissible(f, 0);
    if MagicAt(s, 0) {
      assert AnnouncedSize(f, 0) == AnnouncedSize(s, 0);
    }
  }

  lemma NoStartInSuffix(g: seq<byte>, m: seq<byte>, n: nat)
    requires n <= |g| && NoStartIn(g, m)
    ensures NoStartIn(g[n..], m)
  {
    var f := g + Frame(m);
    assert g[n..] + Frame(m) == f[n..];
    forall i | 0 <= i < |g[n..]|
      ensures !Admissible(f[n..], i)
    {
      assert !Admissible(f, n + i);
    }
  }

  /** Garbage in front of a frame is dropped, and nothing else is, as long as no position of the
      garbage starts an admissible header. */
  lemma {:induction false} Resynchronises(g: seq<byte>, m: seq<byte>, t: seq<byte>)
    requires |m| <= MAX_PAYLOAD
    requires NoStartIn(g, m)
    ensures Parse(g + Frame(m) + t) == Parse(t).After([m])
    decreases |g|
  {
    hide Decide, Admissible;
    if g == [] {
      assert g + Frame(m) + t == Frame(m) + t;
      ParseFrame(m, t);
    } else {
      var s := g + Frame(m) + t;
      GarbageStep(g, m, t);
      var n := Decide(s, MAX_PAYLOAD).Consumed();
      NoStartInSuffix(g, m, n);
      Resynchronises(g[n..], m, t);
      assert s[n..] == g[n..] + Frame(m) + t;
      assert Parse(s) == Parse(s[n..]).After([]);
    }
  }

  /** In particular garbage that does not contain the two magic bytes side by side. */
  lemma ResynchronisesNoMagic(g: seq<byte>, m: seq<byte>, t: seq<byte>)
    requires |m| <= MAX_PAYLOAD
    requires forall i | 0 <= i < |g| - 1 :: !MagicAt(g, i)
    ensures Parse(g + Frame(m) + t) == Parse(t).After([m])
  {
    forall i | 0 <= i < |g|
      ensures !Admissible(g + Frame(m), i)
    {
      if i < |g| - 1 {
        assert !MagicAt(g, i);
      } else {
        assert (g + Frame(m))[i + 1] == MAGIC0;
      }
    }
    Resynchronises(g, m, t);
  }

  /** The extent that one decision contributes. */
  ghost function FirstExtent(s: seq<byte>, base: nat): seq<(nat, nat)> {
    var d := Decide(s, MAX_PAYLOAD);
    if d.Deliver? then [(base, base + d.Consumed())] else []
  }

  /** The extents, in the stream, of the frames that a parse delivers; `base` is added to each. */
  ghost function Extents(s: seq<byte>, base: nat): (e: seq<(nat, nat)>)
    decreases |s|
  {
    var n := Decide(s, MAX_PAYLOAD).Consumed();
    if n == 0 then [] else FirstExtent(s, base) + Extents(s[n..], base + n)
  }

  ghost predicate Covered(at: nat, extents: seq<(nat, nat)>) {
    exists k | 0 <= k < |extents| :: extents[k].0 <= at < extents[k].1
  }

  lemma CoveredBehind(at: nat, first: seq<(nat, nat)>, later: seq<(nat, nat)>)
    requires Covered(at, later)
    ensures Covered(at, first + later)
  {
    var k :| 0 <= k < |later| && later[k].0 <= at < later[k].1;
    assert (first + later)[|first| + k] == later[k];
  }

  /** An extent [a, b) of stream `s` (numbered from `base`) holds a frame with payload `m`. */
  ghost predicate FrameAt(s: seq<byte>, base: nat, extent: (nat, nat), m: seq<byte>) {
    && base <= extent.0
    && extent.0 + HEADER_SIZE <= extent.1 <= base + |s|
    && s[extent.0 - base..extent.1 - base] == Frame(m)
  }

  lemma DeliveredIsFrame(s: seq<byte>)
    requires Decide(s, MAX_PAYLOAD).Deliver?
    ensures var m := Decide(s, MAX_PAYLOAD).payload; |m| <= MAX_PAYLOAD && s[..HEADER_SIZE + |m|] == Frame(m)
  {
  }

  lemma ThisFrameAt(s: seq<byte>, base: nat)
    requires Decide(s, MAX_PAYLOAD).Deliver?
    ensures var d := Decide(s, MAX_PAYLOAD); FrameAt(s, base, (base, base + d.Consumed()), d.payload)
  {
    DeliveredIsFrame(s);
  }

  ghost predicate FramesAt(s: seq<byte>, base: nat, extents: seq<(nat, nat)>, ms: seq<seq<byte>>) {
    |extents| == |ms| && forall k | 0 <= k < |ms| :: FrameAt(s, base, extents[k], ms[k])
  }

  lemma FramesAtInSuffix(s: seq<byte>, base: nat, n: nat, extents: seq<(nat, nat)>, ms: seq<seq<byte>>)
    requires n <= |s|
    requires FramesAt(s[n..], base + n, extents, ms)
    ensures FramesAt(s, base, extents, ms)
  {
  }

  /** Every admissible start among the bytes a decision consumes lies in its extent. */
  lemma FirstExtentCovers(s: seq<byte>, base: nat, at: nat)
    requires Admissible(s, at) && at < Decide(s, MAX_PAYLOAD).Consumed()
    ensures Covered(base + at, FirstExtent(s, base))
  {
    if Decide(s, MAX_PAYLOAD).Deliver? {
      assert FirstExtent(s, base)[0].0 <= base + at < FirstExtent(s, base)[0].1;
    } else {
      DiscardSound(s, at);
    }
  }

  lemma FirstExtentHolds(s: seq<byte>, base: nat)
    ensures FramesAt(s, base, FirstExtent(s, base), Decide(s, MAX_PAYLOAD).Messages())
  {
    if Decide(s, MAX_PAYLOAD).Deliver? {
      ThisFrameAt(s, base);
    }
  }

  /** One step of a parse, on the extents. */
  lemma ExtentsStep(s: seq<byte>, base: nat)
    requires Decide(s, MAX_PAYLOAD).Consumed() > 0
    ensures var d := Decide(s, MAX_PAYLOAD);
            && Extents(s, base) == FirstExtent(s, base) + Extents(s[d.Consumed()..], base + d.Consumed())
            && Parse(s) == Parse(s[d.Consumed()..]).After(d.Messages())
  {
    hide Decide;
  }

  lemma FramesAtConcat(s: seq<byte>, base: nat, es: seq<(nat, nat)>, ms: seq<seq<byte>>,
                       fs: seq<(nat, nat)>, ns: seq<seq<byte>>)
    requires FramesAt(s, base, es, ms) && FramesAt(s, base, fs, ns)
    ensures FramesAt(s, base, es + fs, ms + ns)
  {
    hide FrameAt;
  }

  lemma FramesAtStep(s: seq<byte>, base: nat)
    requires var n := Decide(s, MAX_PAYLOAD).Consumed();
             n > 0 && FramesAt(s[n..], base + n, Extents(s[n..], base + n), Parse(s[n..]).messages)
    ensures FramesAt(s, base, Extents(s, base), Parse(s).messages)
  {
    hide Decide, Parse, Extents, FirstExtent, FramesAt;
    var d := Decide(s, MAX_PAYLOAD);
    var n: nat := d.Consumed();
    var later, ms := Extents(s[n..], base + n), Parse(s[n..]).messages;
    ExtentsStep(s, base);
    FirstExtentHolds(s, base);
    FramesAtInSuffix(s, base, n, later, ms);
    FramesAtConcat(s, base, FirstExtent(s, base), d.Messages(), later, ms);
  }

  /** The delivered messages are exactly the frames found at the extents. */
  lemma {:induction false} ExtentsAreMessages(s: seq<byte>, base: nat)
    ensures FramesAt(s, base, Extents(s, base), Parse(s).messages)
    decreases |s|
  {
    var n: nat := Decide(s, MAX_PAYLOAD).Consumed();
    if n > 0 {
      hide Parse, Extents, FramesAt;
      ExtentsAreMessages(s[n..], base + n);
      FramesAtStep(s, base);
    }
  }

  lemma CoveredInFront(at: nat, first: seq<(nat, nat)>, later: seq<(nat, nat)>)
    requires Covered(at, first)
    ensures Covered(at, first + later)
  {
    var k :| 0 <= k < |first| && first[k].0 <= at < first[k].1;
    assert (first + later)[k] == first[k];
  }

  lemma StartInSuffix(s: seq<byte>, at: nat, n: nat)
    requires n <= at && Admissible(s, at)
    ensures Admissible(s[n..], at - n)
  {
  }

  /** Position `at` of a stream ends up inside a delivered frame or in the bytes still queued. */
  ghost predicate Kept(s: seq<byte>, base: nat, at: nat) {
    at >= |s| - |Parse(s).rest| || Covered(base + at, Extents(s, base))
  }

  lemma KeptStep(s: seq<byte>, base: nat, at: nat)
    requires Admissible(s, at)
    requires var n := Decide(s, MAX_PAYLOAD).Consumed();
             n > 0 && (at >= n ==> Kept(s[n..], base + n, at - n))
    ensures Kept(s, base, at)
  {
    hide Decide, Parse, Extents, FirstExtent, Covered, Admissible;
    var n: nat := Decide(s, MAX_PAYLOAD).Consumed();
    ExtentsStep(s, base);
    var first, later := FirstExtent(s, base), Extents(s[n..], base + n);
    if at < n {
      FirstExtentCovers(s, base, at);
      CoveredInFront(base + at, first, later);
    } else if Covered(base + at, later) {
      CoveredBehind(base + at, first, later);
    }
  }

  /** No admissible frame start is ever thrown away: over a whole stream, each one lies inside a
      delivered frame or in the bytes still queued. */
  lemma {:induction false} NoStartSkipped(s: seq<byte>, base: nat, at: nat)
    requires Admissible(s, at)
    ensures Kept(s, base, at)
    decreases |s|
  {
    var n: nat := Decide(s, MAX_PAYLOAD).Consumed();
    if n == 0 {
      assert Parse(s).rest == s;
    } else {
      hide Parse, Kept;
      if at >= n {
        StartInSuffix(s, at, n);
        NoStartSkipped(s[n..], base + n, at - n);
      }
      KeptStep(s, base, at);
    }
  }

  // ---------------------------------------------------------------- the bounded receiver

  /** A ring of 1023 bytes fed one byte at a time and polled to quiescence before each; None is overflow. */
  function Receive(queued: seq<byte>, stream: seq<byte>): Option<Parsed>
    decreases |stream|
  {
    if stream == [] then Some(Parsed([], queued))
    else if |queued| >= RING_CAPACITY then None
    else
      var p := Parse(queued + [stream[0]]);
      match Receive(p.rest, stream[1..])
      case None => None
      case Some(q) => Some(q.After(p.messages))
  }

  /** The bounded receiver refines the unbounded parser: no stream of any length or content
      overflows it, and it returns exactly the messages of the whole stream. */
  lemma {:induction false} BoundedReceiverRefinesParse(queued: seq<byte>, stream: seq<byte>)
    requires Decide(queued, MAX_PAYLOAD).Wait?
    ensures Receive(queued, stream) == Some(Parse(queued + stream))
    decreases |stream|
  {
    QuiescentFits(queued);
    if stream == [] {
      assert queued + stream == queued;
    } else {
      hide Decide, Parse;
      var s := queued + [stream[0]];
      assert queued + stream == s + stream[1..];
      RestQuiescent(s);
      BoundedReceiverRefinesParse(Parse(s).rest, stream[1..]);
      ParseAppend(s, stream[1..]);
    }
  }
}

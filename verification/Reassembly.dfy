/**
  The client's frame buffer (VideoClient/main.cpp, consumerThread): chunks are
  copied to offset * PAYLOAD_SIZE in whatever order they arrive, and the frame
  counts as complete when the bytes delivered add up to its size.
 */
module Reassembly {
  import opened Words
  import opened Arithmetic
  import opened Packets
  import opened Sequencing

  datatype Buffer = Buffer(
    chunks: seq<byte>,
    totalSize: nat,
    expectedSize: nat,
    frameNumber: nat,
    totalPackets: nat)

  const EMPTY: Buffer := Buffer([], 0, 0, 0, 0)

  function Zeros(n: nat): seq<byte> {
    seq(n, _ => 0)
  }

  /** The first packet of a frame sizes the buffer; resize fills it with zeros. */
  function Prepare(b: Buffer, pkt: Packet): Buffer {
    if b.chunks == [] then
      b.(expectedSize := pkt.slidingWindow, frameNumber := pkt.frameNumber, chunks := Zeros(pkt.slidingWindow))
    else b
  }

  /** The header's size field counts the payload, and the copy stays inside the buffer. */
  predicate Acceptable(c: Config, b: Buffer, pkt: Packet) {
    && c.Ok()
    && pkt.size == |pkt.payload| + c.header
    && Times(pkt.offset, c.Payload()) + |pkt.payload| <= |Prepare(b, pkt).chunks|
  }

  /** What the consumer does to the buffer with one stream packet. */
  function Absorb(c: Config, b: Buffer, pkt: Packet): Buffer
    requires Acceptable(c, b, pkt)
  {
    var q := Prepare(b, pkt);
    q.(totalPackets := Dword(q.totalPackets + 1),
       totalSize := Dword(q.totalSize + (pkt.size - c.header)),
       chunks := Overwrite(q.chunks, Times(pkt.offset, c.Payload()), pkt.payload))
  }

  /** The consumer's completion test. */
  predicate Complete(b: Buffer) {
    b.totalSize == b.expectedSize
  }

  // ----- A buffer's life: genuine packets of one frame, by their offsets, in the order delivered -----

  predicate Offsets(s: Session, f: nat, offs: seq<nat>)
    requires s.config.Ok()
  {
    forall j :: 0 <= j < |offs| ==> s.Valid(f, offs[j])
  }

  lemma GenuineShape(s: Session, f: nat, o: nat)
    requires s.Ok() && s.Valid(f, o)
    ensures var p, pkt, frame := s.P(), s.PacketAt(f, o), s.frames[f];
            && 0 < |frame| < INT_LIMIT
            && 0 <= Times(o, p) < Times(o, p) + ChunkSize(|frame|, o, p) <= |frame|
            && pkt.payload == CopyOf(frame, Times(o, p), ChunkSize(|frame|, o, p))
            && pkt.size == |pkt.payload| + s.config.header
            && pkt.slidingWindow == |frame|
            && pkt.frameNumber == f && pkt.offset == o && pkt.kind == PACKET_TYPE_STREAM
            && ChunkSize(|frame|, o, p) == |pkt.payload|
  {
    PayloadIsSlice(s.config, s.frames[f], f, o, s.SeqOf(f, o));
    CountIsExact(|s.frames[f]|, s.P());
  }

  /** The buffer after the deliveries. */
  ghost function Replay(s: Session, f: nat, offs: seq<nat>): (b: Buffer)
    requires s.Ok() && Offsets(s, f, offs)
    ensures offs == [] ==> b == EMPTY
    ensures offs != [] ==>
              && s.Valid(f, offs[0])
              && |b.chunks| == b.expectedSize == |s.frames[f]| > 0
              && b.frameNumber == f
  {
    if offs == [] then EMPTY
    else
      var front, o := offs[..|offs| - 1], offs[|offs| - 1];
      GenuineShape(s, f, o);
      Absorb(s.config, Replay(s, f, front), s.PacketAt(f, o))
  }

  /** The bytes delivered, counted with repetition. */
  ghost function Bytes(s: Session, f: nat, offs: seq<nat>): (n: nat)
    requires s.Ok() && Offsets(s, f, offs)
  {
    if offs == [] then 0
    else
      var front, o := offs[..|offs| - 1], offs[|offs| - 1];
      GenuineShape(s, f, o);
      Bytes(s, f, front) + ChunkSize(|s.frames[f]|, o, s.P())
  }

  ghost predicate AllArrived(s: Session, f: nat, offs: seq<nat>)
    requires s.config.Ok() && f < |s.frames|
  {
    forall i: nat :: i < s.Count(f) ==> i in offs
  }

  /** totalSize and totalPackets count every delivery, as DWORDs. */
  lemma {:induction false} ReplayTotals(s: Session, f: nat, offs: seq<nat>)
    requires s.Ok() && Offsets(s, f, offs)
    ensures Replay(s, f, offs).totalSize == Dword(Bytes(s, f, offs))
    ensures Replay(s, f, offs).totalPackets == Dword(|offs|)
  {
    hide MakePacket, PacketCount, ChunkSize, Session.PacketAt, Dword, Overwrite;
    if offs == [] {
      DwordSmall(0);
    } else {
      var front, o := offs[..|offs| - 1], offs[|offs| - 1];
      ReplayTotals(s, f, front);
      GenuineShape(s, f, o);
      DwordAdd(Bytes(s, f, front), ChunkSize(|s.frames[f]|, o, s.P()));
      DwordAdd(|front|, 1);
    }
  }

  /** Each byte of the buffer is the frame's if its chunk has been delivered, and zero if not. */
  lemma {:induction false} ReplayContent(s: Session, f: nat, offs: seq<nat>, x: nat)
    requires s.Ok() && Offsets(s, f, offs) && offs != [] && f < |s.frames| && x < |s.frames[f]|
    ensures Replay(s, f, offs).chunks[x] == if Quotient(x, s.P()) in offs then s.frames[f][x] else 0
  {
    hide MakePacket, PacketCount, ChunkSize, Session.PacketAt, Dword;
    var front, o := offs[..|offs| - 1], offs[|offs| - 1];
    GenuineShape(s, f, o);
    ByteInChunk(|s.frames[f]|, x, o, s.P());
    if front != [] {
      ReplayContent(s, f, front, x);
    }
    assert offs == front + [o];
  }

  /** A chunk delivered again changes no byte of the buffer. */
  lemma RedeliveryIsIdempotent(s: Session, f: nat, offs: seq<nat>, o: nat)
    requires s.Ok() && Offsets(s, f, offs) && o in offs
    ensures Offsets(s, f, offs + [o])
    ensures Replay(s, f, offs + [o]).chunks == Replay(s, f, offs).chunks
  {
    hide MakePacket, PacketCount, ChunkSize, Session.PacketAt, Absorb;
    var more := offs + [o];
    forall x: nat | x < |s.frames[f]|
      ensures Replay(s, f, more).chunks[x] == Replay(s, f, offs).chunks[x]
    {
      ReplayContent(s, f, offs, x);
      ReplayContent(s, f, more, x);
    }
  }

  /**
    The exact condition under which a buffer is the host's frame: whatever has
    not arrived is zero in the frame.
   */
  lemma BufferIsFrameIff(s: Session, f: nat, offs: seq<nat>)
    requires s.Ok() && Offsets(s, f, offs) && offs != []
    ensures Replay(s, f, offs).chunks == s.frames[f]
       <==> forall x: nat :: x < |s.frames[f]| && Quotient(x, s.P()) !in offs ==> s.frames[f][x] == 0
  {
    hide MakePacket, PacketCount, ChunkSize, Session.PacketAt, Absorb;
    var b := Replay(s, f, offs);
    forall x: nat | x < |s.frames[f]|
      ensures b.chunks[x] == if Quotient(x, s.P()) in offs then s.frames[f][x] else 0
    {
      ReplayContent(s, f, offs, x);
    }
  }

  /** When every chunk has arrived the buffer is the frame, however often and in whatever order they came. */
  lemma AllArrivedIsFrame(s: Session, f: nat, offs: seq<nat>)
    requires s.Ok() && f < |s.frames| && Offsets(s, f, offs) && offs != [] && AllArrived(s, f, offs)
    ensures Replay(s, f, offs).chunks == s.frames[f]
  {
    hide MakePacket, PacketCount, ChunkSize, Session.PacketAt, Absorb, Replay, Covers;
    BufferIsFrameIff(s, f, offs);
    forall x: nat | x < |s.frames[f]|
      ensures Quotient(x, s.P()) in offs
    {
      ChunksTile(s.config, |s.frames[f]|, x);
    }
  }

  // ----- Conservation: bytes delivered = bytes of the chunks held + bytes of the repetitions -----

  /** The bytes of the chunks below k that have arrived. */
  ghost function Held(s: Session, f: nat, offs: seq<nat>, k: nat): int
    requires s.config.Ok() && f < |s.frames| && k <= s.Count(f)
  {
    if k == 0 then 0
    else Held(s, f, offs, k - 1) + if k - 1 in offs then ChunkSize(|s.frames[f]|, k - 1, s.P()) else 0
  }

  /** The bytes of the deliveries of chunks that had arrived before. */
  ghost function Repeated(s: Session, f: nat, offs: seq<nat>): (n: int)
    requires s.Ok() && Offsets(s, f, offs)
    ensures n >= 0
    ensures n == 0 <==> NoDup(offs)
  {
    if offs == [] then 0
    else
      var front, o := offs[..|offs| - 1], offs[|offs| - 1];
      GenuineShape(s, f, o);
      assert offs == front + [o];
      Repeated(s, f, front) + if o in front then ChunkSize(|s.frames[f]|, o, s.P()) else 0
  }

  lemma {:induction false} HeldGrows(s: Session, f: nat, front: seq<nat>, o: nat, k: nat)
    requires s.config.Ok() && f < |s.frames| && k <= s.Count(f)
    ensures Held(s, f, front + [o], k)
         == Held(s, f, front, k) + if o < k && o !in front then ChunkSize(|s.frames[f]|, o, s.P()) else 0
  {
    hide PacketCount, ChunkSize;
    if k > 0 {
      HeldGrows(s, f, front, o, k - 1);
    }
  }

  lemma {:induction false} HeldNone(s: Session, f: nat, k: nat)
    requires s.config.Ok() && f < |s.frames| && k <= s.Count(f)
    ensures Held(s, f, [], k) == 0
  {
    hide PacketCount, ChunkSize;
    if k > 0 {
      HeldNone(s, f, k - 1);
    }
  }

  lemma {:induction false} BytesConserved(s: Session, f: nat, offs: seq<nat>)
    requires s.Ok() && Offsets(s, f, offs) && f < |s.frames|
    ensures Bytes(s, f, offs) == Held(s, f, offs, s.Count(f)) + Repeated(s, f, offs)
  {
    hide MakePacket, PacketCount, ChunkSize;
    if offs == [] {
      HeldNone(s, f, s.Count(f));
    } else {
      var front, o := offs[..|offs| - 1], offs[|offs| - 1];
      BytesConserved(s, f, front);
      HeldGrows(s, f, front, o, s.Count(f));
      assert offs == front + [o];
    }
  }

  /** The chunks held make up the frame's size exactly when none is missing. */
  lemma {:induction false} HeldBound(s: Session, f: nat, offs: seq<nat>, k: nat)
    requires s.Ok() && f < |s.frames| && k <= s.Count(f)
    ensures Held(s, f, offs, k) <= Min(Times(k, s.P()), |s.frames[f]|)
    ensures Held(s, f, offs, k) == Min(Times(k, s.P()), |s.frames[f]|) <==> forall i: nat :: i < k ==> i in offs
  {
    if k > 0 {
      HeldBound(s, f, offs, k - 1);
      NextChunk(s, f, k - 1);
      hide PacketCount, ChunkSize, Session.Ok, Min;
      assert (forall i: nat :: i < k ==> i in offs) <==> (forall i: nat :: i < k - 1 ==> i in offs) && k - 1 in offs;
    }
  }

  lemma NextChunk(s: Session, f: nat, i: nat)
    requires s.Ok() && f < |s.frames| && i < s.Count(f)
    ensures Min(Times(i + 1, s.P()), |s.frames[f]|) == Min(Times(i, s.P()), |s.frames[f]|) + ChunkSize(|s.frames[f]|, i, s.P())
    ensures ChunkSize(|s.frames[f]|, i, s.P()) > 0
  {
    CountIsExact(|s.frames[f]|, s.P());
    ChunkBounds(|s.frames[f]|, i, s.P(), s.Count(f));
  }

  lemma HeldAll(s: Session, f: nat, offs: seq<nat>)
    requires s.Ok() && f < |s.frames|
    ensures Held(s, f, offs, s.Count(f)) <= |s.frames[f]|
    ensures Held(s, f, offs, s.Count(f)) == |s.frames[f]| <==> AllArrived(s, f, offs)
  {
    CountIsExact(|s.frames[f]|, s.P());
    HeldBound(s, f, offs, s.Count(f));
  }

  /**
    Exactness of the completion test. Whenever totalSize equals expectedSize, no
    chunk was delivered twice if and only if every chunk has arrived and the
    byte total has not wrapped.
   */
  lemma CompletionIsExact(s: Session, f: nat, offs: seq<nat>)
    requires s.Ok() && Offsets(s, f, offs) && offs != [] && Complete(Replay(s, f, offs))
    ensures NoDup(offs) <==> AllArrived(s, f, offs) && Bytes(s, f, offs) < DWORD_LIMIT
  {
    ReplayTotals(s, f, offs);
    GenuineShape(s, f, offs[0]);
    hide MakePacket, PacketCount, ChunkSize, Session.PacketAt, Absorb, Replay, Bytes, Repeated, Held, AllArrived;
    BytesConserved(s, f, offs);
    HeldAll(s, f, offs);
    if Bytes(s, f, offs) < DWORD_LIMIT {
      DwordSmall(Bytes(s, f, offs));
    }
  }

  /** Without a wrap, "complete" means "every chunk arrived" exactly when there was no repetition. */
  lemma CompleteMeansAllArrivedIff(s: Session, f: nat, offs: seq<nat>)
    requires s.Ok() && Offsets(s, f, offs) && offs != [] && Complete(Replay(s, f, offs))
    requires Bytes(s, f, offs) < DWORD_LIMIT
    ensures Bytes(s, f, offs) == |s.frames[f]|
    ensures AllArrived(s, f, offs) <==> NoDup(offs)
  {
    CompletionIsExact(s, f, offs);
    ReplayTotals(s, f, offs);
    DwordSmall(Bytes(s, f, offs));
  }

  /**
    The byte total can wrap: for a frame of four bytes, delivered 2^30 + 1 times,
    the test succeeds again although its only chunk was delivered many times.
   */
  lemma WrapCompletesAgain(s: Session, f: nat)
    requires s.Ok() && f < |s.frames| && |s.frames[f]| == 4 <= s.P()
    ensures var offs := seq(0x4000_0001, _ => 0);
            && Offsets(s, f, offs)
            && Complete(Replay(s, f, offs)) && Complete(Replay(s, f, offs[..1]))
            && AllArrived(s, f, offs) && !NoDup(offs) && Bytes(s, f, offs) >= DWORD_LIMIT
  {
    var offs: seq<nat> := seq(0x4000_0001, _ => 0);
    CountIsExact(4, s.P());
    assert s.Count(f) == 1;
    hide PacketCount, MakePacket;
    BytesOfOneChunk(s, f, offs);
    BytesOfOneChunk(s, f, offs[..1]);
    hide Bytes, Replay;
    ReplayTotals(s, f, offs);
    ReplayTotals(s, f, offs[..1]);
    assert offs[0] == offs[1] == 0;
  }

  lemma {:induction false} BytesOfOneChunk(s: Session, f: nat, offs: seq<nat>)
    requires s.Ok() && Offsets(s, f, offs) && f < |s.frames| && |s.frames[f]| == 4 <= s.P()
    requires forall j :: 0 <= j < |offs| ==> offs[j] == 0
    ensures Bytes(s, f, offs) == 4 * |offs|
  {
    hide PacketCount, MakePacket;
    if offs != [] {
      BytesOfOneChunk(s, f, offs[..|offs| - 1]);
    }
  }

  /** The first k chunks of a frame, except that chunk 0 comes again in place of chunk 1. */
  function FirstTwice(k: nat): (offs: seq<nat>)
    ensures |offs| == k && forall i :: 0 <= i < k ==> offs[i] == if i == 1 then 0 else i
  {
    seq(k, i requires 0 <= i < k => if i == 1 then 0 else i)
  }

  lemma {:induction false} BytesOfFirstTwice(s: Session, f: nat, k: nat)
    requires s.Ok() && f < |s.frames| && |s.frames[f]| >= 2 * s.P() && k <= s.Count(f)
    ensures Offsets(s, f, FirstTwice(k)) && Bytes(s, f, FirstTwice(k)) == Min(Times(k, s.P()), |s.frames[f]|)
  {
    hide MakePacket, PacketCount;
    if k > 0 {
      BytesOfFirstTwice(s, f, k - 1);
      NextChunk(s, f, k - 1);
      assert FirstTwice(k)[..k - 1] == FirstTwice(k - 1);
    }
  }

  /**
    A repetition can hide a loss: for every frame of at least two full chunks
    there is a history that passes the completion test, with no wrap, while
    chunk 1 has never arrived; it leaves the frame's own bytes out.
   */
  lemma RepetitionHidesALoss(s: Session, f: nat)
    requires s.Ok() && f < |s.frames| && |s.frames[f]| >= 2 * s.P()
    ensures var offs := FirstTwice(s.Count(f));
            && Offsets(s, f, offs) && s.Valid(f, 1) && 1 !in offs
            && Complete(Replay(s, f, offs)) && Bytes(s, f, offs) == |s.frames[f]|
            && (Replay(s, f, offs).chunks == s.frames[f] <==> forall x :: s.P() <= x < 2 * s.P() ==> s.frames[f][x] == 0)
  {
    var (p, count) := (s.P(), s.Count(f));
    CountIsExact(|s.frames[f]|, p);
    var offs := FirstTwice(count);
    BytesOfFirstTwice(s, f, count);
    ReplayTotals(s, f, offs);
    hide MakePacket, PacketCount, Bytes, Replay, Dword;
    DwordSmall(|s.frames[f]|);
    BufferIsFrameIff(s, f, offs);
    forall x: nat | x < |s.frames[f]|
      ensures Quotient(x, p) in offs <==> !(p <= x < 2 * p)
    {
      ByteHasChunk(|s.frames[f]|, x, count, p);
      QuotientUnique(x, 1, p);
      var q := Quotient(x, p);
      if q != 1 {
        assert offs[q] == q;
      }
    }
  }

  /** The first k deliveries when chunk 0 comes twice and then the others in order. */
  function FirstAgain(k: nat): (offs: seq<nat>)
    ensures |offs| == k && forall i :: 0 <= i < k ==> offs[i] == if i == 0 then 0 else i - 1
  {
    seq(k, i requires 0 <= i < k => if i == 0 then 0 else i - 1)
  }

  lemma {:induction false} BytesOfFirstAgain(s: Session, f: nat, k: nat)
    requires s.Ok() && f < |s.frames| && s.Count(f) >= 2 && k <= s.Count(f) + 1
    ensures Offsets(s, f, FirstAgain(k))
    ensures Bytes(s, f, FirstAgain(k)) == if k == 0 then 0 else s.P() + Min(Times(k - 1, s.P()), |s.frames[f]|)
  {
    FirstIsFull(s, f);
    hide MakePacket, PacketCount;
    if k > 0 {
      BytesOfFirstAgain(s, f, k - 1);
      assert FirstAgain(k)[..k - 1] == FirstAgain(k - 1);
      if k > 1 {
        NextChunk(s, f, k - 2);
      }
    }
  }

  lemma FirstIsFull(s: Session, f: nat)
    requires s.Ok() && f < |s.frames| && s.Count(f) >= 2
    ensures s.P() < |s.frames[f]| && ChunkSize(|s.frames[f]|, 0, s.P()) == s.P()
  {
    CountIsExact(|s.frames[f]|, s.P());
    MulMono(2, s.Count(f), s.P());
    hide PacketCount;
  }

  /** Until the last of them the deliveries are multiples of the payload size, and with it the frame and a chunk. */
  lemma FirstAgainMisses(s: Session, f: nat, k: nat)
    requires s.Ok() && f < |s.frames| && s.Count(f) >= 2 && Times(s.Count(f), s.P()) != |s.frames[f]| && 0 < k <= s.Count(f) + 1
    ensures s.P() + Min(Times(k - 1, s.P()), |s.frames[f]|) != |s.frames[f]|
    ensures s.P() + |s.frames[f]| < DWORD_LIMIT
  {
    var (p, count) := (s.P(), s.Count(f));
    CountIsExact(|s.frames[f]|, p);
    hide PacketCount;
    MulNext(k - 1, p);
    if k < count {
      MulMono(k, count - 1, p);
      MulNext(count - 1, p);
    }
  }

  /**
    A repetition can hide a frame: for every frame of two chunks or more whose
    last chunk is not full there is a history that brings every chunk, and yet
    the completion test succeeds at none of its deliveries.
   */
  lemma RepetitionHidesAFrame(s: Session, f: nat)
    requires s.Ok() && f < |s.frames| && s.Count(f) >= 2 && Times(s.Count(f), s.P()) != |s.frames[f]|
    ensures var offs := FirstAgain(s.Count(f) + 1);
            && Offsets(s, f, offs) && AllArrived(s, f, offs)
            && forall k :: 0 < k <= |offs| ==> Offsets(s, f, offs[..k]) && !Complete(Replay(s, f, offs[..k]))
  {
    var offs := FirstAgain(s.Count(f) + 1);
    hide MakePacket, PacketCount, Bytes, Replay, Dword;
    BytesOfFirstAgain(s, f, s.Count(f) + 1);
    forall k | 0 < k <= |offs|
      ensures Offsets(s, f, offs[..k]) && !Complete(Replay(s, f, offs[..k]))
    {
      assert offs[..k] == FirstAgain(k);
      FirstAgainIncomplete(s, f, k);
    }
    forall i: nat | i < s.Count(f)
      ensures i in offs
    {
      assert offs[i + 1] == i;
    }
  }

  lemma FirstAgainIncomplete(s: Session, f: nat, k: nat)
    requires s.Ok() && f < |s.frames| && s.Count(f) >= 2 && Times(s.Count(f), s.P()) != |s.frames[f]| && 0 < k <= s.Count(f) + 1
    ensures Offsets(s, f, FirstAgain(k)) && !Complete(Replay(s, f, FirstAgain(k)))
  {
    BytesOfFirstAgain(s, f, k);
    hide MakePacket, PacketCount, Bytes, Replay, Dword;
    FirstAgainMisses(s, f, k);
    ReplayTotals(s, f, FirstAgain(k));
    assert s.Valid(f, FirstAgain(k)[0]);
    DwordSmall(Bytes(s, f, FirstAgain(k)));
  }

  /** Each delivery adds at least one byte, so a longer history has delivered more. */
  lemma {:induction false} BytesGrow(s: Session, f: nat, offs: seq<nat>, k: nat)
    requires s.Ok() && Offsets(s, f, offs) && k < |offs|
    ensures Bytes(s, f, offs[..k]) < Bytes(s, f, offs)
  {
    hide PacketCount, MakePacket, ChunkSize;
    var front, o := offs[..|offs| - 1], offs[|offs| - 1];
    GenuineShape(s, f, o);
    if k < |front| {
      BytesGrow(s, f, front, k);
      assert front[..k] == offs[..k];
    }
  }

  // ----- Order independence -----

  lemma AllArrivedOnceCompletes(s: Session, f: nat, offs: seq<nat>)
    requires s.Ok() && f < |s.frames| && Offsets(s, f, offs) && offs != [] && NoDup(offs) && AllArrived(s, f, offs)
    ensures Complete(Replay(s, f, offs))
  {
    hide MakePacket, PacketCount, ChunkSize, Absorb, Replay, Bytes, Repeated, Held, AllArrived;
    BytesConserved(s, f, offs);
    HeldAll(s, f, offs);
    ReplayTotals(s, f, offs);
    DwordSmall(|s.frames[f]|);
  }

  lemma PartIsIncomplete(s: Session, f: nat, offs: seq<nat>, k: nat)
    requires s.Ok() && f < |s.frames| && Offsets(s, f, offs) && NoDup(offs) && 0 < k < |offs|
    ensures !Complete(Replay(s, f, offs[..k]))
  {
    hide PacketCount, Replay, Complete, Bytes;
    assert s.Valid(f, offs[k]) && offs[k] !in offs[..k];
    if Complete(Replay(s, f, offs[..k])) {
      CompletionIsExact(s, f, offs[..k]);
      assert false;
    }
  }

  /**
    When each chunk of a frame is delivered exactly once, in any order, the test
    succeeds at the last delivery and at no earlier one, and the buffer is the frame.
   */
  lemma AnyOrderCompletesAtTheLast(s: Session, f: nat, offs: seq<nat>)
    requires s.Ok() && f < |s.frames| && Offsets(s, f, offs) && offs != [] && NoDup(offs) && AllArrived(s, f, offs)
    ensures Replay(s, f, offs).chunks == s.frames[f]
    ensures forall k :: 0 < k <= |offs| ==> (Complete(Replay(s, f, offs[..k])) <==> k == |offs|)
  {
    AllArrivedIsFrame(s, f, offs);
    AllArrivedOnceCompletes(s, f, offs);
    hide Replay, Complete, AllArrived;
    assert offs[..|offs|] == offs;
    forall k | 0 < k < |offs|
      ensures !Complete(Replay(s, f, offs[..k]))
    {
      PartIsIncomplete(s, f, offs, k);
    }
  }

  lemma {:induction false} BytesWithout(s: Session, f: nat, offs: seq<nat>, j: nat)
    requires s.Ok() && f < |s.frames| && Offsets(s, f, offs) && j < |offs|
    ensures Offsets(s, f, offs[..j] + offs[j + 1..])
    ensures Bytes(s, f, offs) == Bytes(s, f, offs[..j] + offs[j + 1..]) + ChunkSize(|s.frames[f]|, offs[j], s.P())
  {
    hide PacketCount, MakePacket, ChunkSize;
    var last := |offs| - 1;
    if j < last {
      BytesWithout(s, f, offs[..last], j);
      var rest := offs[..j] + offs[j + 1..];
      assert rest[..|rest| - 1] == offs[..last][..j] + offs[..last][j + 1..];
      assert rest[|rest| - 1] == offs[last];
    } else {
      assert offs[..j] + offs[j + 1..] == offs[..last];
    }
  }

  lemma RemoveAt(a: seq<nat>, j: nat)
    requires j < |a|
    ensures multiset(a[..j] + a[j + 1..]) == multiset(a) - multiset{a[j]}
  {
    assert a == a[..j] + [a[j]] + a[j + 1..];
  }

  lemma {:induction false} BytesIgnoreOrder(s: Session, f: nat, a: seq<nat>, b: seq<nat>)
    requires s.Ok() && Offsets(s, f, a) && Offsets(s, f, b) && multiset(a) == multiset(b)
    ensures Bytes(s, f, a) == Bytes(s, f, b) && |a| == |b|
    decreases |a|
  {
    hide PacketCount, MakePacket, ChunkSize, Bytes;
    assert |a| == |multiset(a)| == |multiset(b)| == |b|;
    if a == [] {
      assert b == [];
    } else {
      var last := |a| - 1;
      assert a[last] in multiset(b);
      var j :| 0 <= j < |b| && b[j] == a[last];
      RemoveAt(a, last);
      RemoveAt(b, j);
      BytesWithout(s, f, a, last);
      assert a[..last] + a[last + 1..] == a[..last];
      BytesWithout(s, f, b, j);
      BytesIgnoreOrder(s, f, a[..last], b[..j] + b[j + 1..]);
    }
  }

  /** The buffer depends on which chunks were delivered and how often, not on their order. */
  lemma BufferIgnoresOrder(s: Session, f: nat, a: seq<nat>, b: seq<nat>)
    requires s.Ok() && Offsets(s, f, a) && Offsets(s, f, b) && multiset(a) == multiset(b)
    ensures Replay(s, f, a) == Replay(s, f, b)
  {
    hide MakePacket, PacketCount, ChunkSize, Session.PacketAt, Absorb, Bytes;
    BytesIgnoreOrder(s, f, a, b);
    ReplayTotals(s, f, a);
    ReplayTotals(s, f, b);
    if a != [] {
      forall x: nat | x < |s.frames[f]|
        ensures Replay(s, f, a).chunks[x] == Replay(s, f, b).chunks[x]
      {
        ReplayContent(s, f, a, x);
        ReplayContent(s, f, b, x);
        assert Quotient(x, s.P()) in a <==> Quotient(x, s.P()) in multiset(a);
        assert Quotient(x, s.P()) in b <==> Quotient(x, s.P()) in multiset(b);
      }
    }
  }
}

/**
  The RTMP stream packet and the arithmetic by which the host cuts one frame
  into packets (VideoHost/protocol.h, VideoHost/host.h). Every cast of the
  source is written out.
 */
module Packets {
  import opened Words
  import opened Arithmetic

  const PACKET_TYPE_EVENT: nat := 0
  const PACKET_TYPE_STREAM: nat := 1
  const PACKET_TYPE_CONTROL: nat := 2
  const FLAG_LAST_PACKET: nat := 1

  /** The sizes the two programs are built with: sizeof(rtmp_packet) and PACKET_SIZE. */
  const DEPLOYED: Config := Config(36, 4096, PACKET_TYPE_STREAM)

  /** Everything is proved for any header and packet size that the source's types can hold. */
  datatype Config = Config(header: nat, chunk: nat, streamType: int) {
    /** headerSize is a CHAR, chunkSize a WORD. */
    predicate Ok() {
      header <= 127 && header < chunk < WORD_LIMIT
    }

    /** payloadSize on the host, PAYLOAD_SIZE on the client. */
    function Payload(): nat
      requires Ok()
    {
      chunk - header
    }
  }

  /** A stream datagram: the header fields and the bytes that follow the header. */
  datatype Packet = Packet(
    version: nat,
    kind: nat,
    size: nat,
    slidingWindow: nat,
    sequenceNumber: nat,
    flags: nat,
    streamType: int,
    frameNumber: nat,
    offset: nat,
    totalPackets: nat,
    payload: seq<byte>)

  /** totalPackets, with its cast to WORD. */
  function PacketCount(frameSize: nat, p: nat): nat
    requires p > 0
  {
    Word(Ceil(frameSize, p))
  }

  /** dataSize: the minimum is taken in SIZE_T, of a totalFrameSize that is a DWORD. */
  function DataSize(frameSize: nat, i: nat, p: nat): nat {
    Min(p, SizeT(Dword(frameSize) - Times(i, p)))
  }

  /** The int product i * payloadSize overflows for no packet of the frame. */
  predicate OffsetsAreInts(frameSize: nat, p: nat)
    requires p > 0
  {
    PacketCount(frameSize, p) == 0 || Times(PacketCount(frameSize, p) - 1, p) < INT_LIMIT
  }

  /** The frames the host's arithmetic is exact for. */
  predicate Fits(frameSize: nat, p: nat) {
    frameSize < INT_LIMIT && frameSize <= 65535 * p
  }

  /** Every packet is copied from inside the frame, whatever the frame's size. */
  lemma ReadsInside(frameSize: nat, i: nat, p: nat)
    requires 0 < p < WORD_LIMIT && i < PacketCount(frameSize, p)
    ensures Times(i, p) + DataSize(frameSize, i, p) <= frameSize
    ensures DataSize(frameSize, i, p) <= p
    ensures frameSize < DWORD_LIMIT ==> DataSize(frameSize, i, p) == Min(p, frameSize - Times(i, p))
  {
    hide Ceil;
    CeilBounds(frameSize, p);
    var q := Ceil(frameSize, p);
    assert i < q && i < 65535 + 1;
    hide PacketCount;
    MulMono(i + 1, q, p);
    MulNext(i, p);
    if frameSize < DWORD_LIMIT {
      assert Times(i, p) < frameSize;
      assert SizeT(frameSize - Times(i, p)) == frameSize - Times(i, p);
    } else {
      MulMono(i + 1, 65535, p);
      TimesIsProduct(65535, p);
    }
  }

  /** The header fields and the payload that sendStream gives packet i of a frame. */
  function MakePacket(c: Config, frame: seq<byte>, frameNumber: nat, i: nat, sequenceNumber: nat): Packet
    requires c.Ok() && i < PacketCount(|frame|, c.Payload())
  {
    var p := c.Payload();
    var n := DataSize(|frame|, i, p);
    ReadsInside(|frame|, i, p);
    Packet(
      1,
      PACKET_TYPE_STREAM,
      Word(n + c.header),
      Dword(|frame|),
      sequenceNumber,
      if i == PacketCount(|frame|, p) - 1 then FLAG_LAST_PACKET else 0,
      c.streamType,
      frameNumber,
      i,
      PacketCount(|frame|, p),
      CopyOf(frame, Times(i, p), n))
  }

  /** The length of chunk i when a frame of n bytes is cut every p bytes. */
  function ChunkSize(n: nat, i: nat, p: nat): int {
    Min(p, n - Times(i, p))
  }

  /** Up to 65535 chunks the cast of totalPackets loses nothing, nor does that of totalFrameSize. */
  lemma CountIsExact(n: nat, p: nat)
    requires 0 < p < WORD_LIMIT && n <= 65535 * p
    ensures n <= Times(PacketCount(n, p), p) < n + p
    ensures PacketCount(n, p) == 0 <==> n == 0
    ensures Dword(n) == n
  {
    hide Ceil;
    CeilBounds(n, p);
    var q := Ceil(n, p);
    if q > 65535 {
      MulMono(65536, q, p);
      TimesIsProduct(65536, p);
      assert false;
    }
  }

  /** Chunk i starts inside the frame and ends where chunk i + 1 starts or the frame ends. */
  lemma ChunkBounds(n: nat, i: nat, p: nat, count: nat)
    requires Times(count, p) < n + p && i < count
    ensures 0 <= Times(i, p) < n
    ensures Times(i, p) + ChunkSize(n, i, p) == Min(Times(i + 1, p), n)
  {
    MulMono(i + 1, count, p);
    MulNext(i, p);
  }

  /** Neither the offset nor the size of any packet is changed by its casts, and no packet is empty. */
  lemma SplitArithmetic(c: Config, n: nat, i: nat)
    requires c.Ok() && n <= 65535 * c.Payload() && i < PacketCount(n, c.Payload())
    ensures DataSize(n, i, c.Payload()) == ChunkSize(n, i, c.Payload()) > 0
    ensures Word(DataSize(n, i, c.Payload()) + c.header) == DataSize(n, i, c.Payload()) + c.header
    ensures n < INT_LIMIT ==> Times(i, c.Payload()) < INT_LIMIT
  {
    var p := c.Payload();
    CountIsExact(n, p);
    ChunkBounds(n, i, p, PacketCount(n, p));
    hide PacketCount;
  }

  lemma FittingOffsetsAreInts(n: nat, p: nat)
    requires 0 < p < WORD_LIMIT && Fits(n, p)
    ensures OffsetsAreInts(n, p)
  {
    CountIsExact(n, p);
    var count := PacketCount(n, p);
    if count > 0 {
      MulNext(count - 1, p);
    }
  }

  /** Position x of a frame lies in chunk i. */
  predicate Covers(n: nat, i: nat, p: nat, x: nat) {
    Times(i, p) <= x < Times(i, p) + ChunkSize(n, i, p)
  }

  /** Every byte of a frame lies in exactly one chunk, the one its position divided by p names. */
  lemma ChunksTile(c: Config, n: nat, x: nat)
    requires c.Ok() && x < n <= 65535 * c.Payload()
    ensures Quotient(x, c.Payload()) < PacketCount(n, c.Payload())
    ensures forall i :: 0 <= i < PacketCount(n, c.Payload()) ==>
              (Covers(n, i, c.Payload(), x) <==> i == Quotient(x, c.Payload()))
  {
    CountIsExact(n, c.Payload());
    ByteHasChunk(n, x, PacketCount(n, c.Payload()), c.Payload());
    forall i | 0 <= i < PacketCount(n, c.Payload())
      ensures Covers(n, i, c.Payload(), x) <==> i == Quotient(x, c.Payload())
    {
      ByteInChunk(n, x, i, c.Payload());
    }
  }

  lemma ByteInChunk(n: nat, x: nat, i: nat, p: nat)
    requires p > 0 && x < n
    ensures Covers(n, i, p, x) <==> i == Quotient(x, p)
  {
    QuotientUnique(x, i, p);
  }

  lemma ByteHasChunk(n: nat, x: nat, count: nat, p: nat)
    requires p > 0 && x < n <= Times(count, p)
    ensures Quotient(x, p) < count
  {
    QuotientUnique(x, Quotient(x, p), p);
    if Quotient(x, p) >= count {
      MulMono(count, Quotient(x, p), p);
      assert false;
    }
  }

  /** The payloads of the first k packets, joined. */
  ghost function Joined(c: Config, frame: seq<byte>, k: nat): seq<byte>
    requires c.Ok() && k <= PacketCount(|frame|, c.Payload())
  {
    if k == 0 then [] else Joined(c, frame, k - 1) + MakePacket(c, frame, 0, k - 1, 0).payload
  }

  lemma PayloadIsSlice(c: Config, frame: seq<byte>, f: nat, i: nat, sequenceNumber: nat)
    requires c.Ok() && i < PacketCount(|frame|, c.Payload())
    requires |frame| <= 65535 * c.Payload()
    ensures var p := c.Payload(); var pkt := MakePacket(c, frame, f, i, sequenceNumber);
            && 0 <= Times(i, p) < Times(i, p) + ChunkSize(|frame|, i, p) == Min(Times(i + 1, p), |frame|) <= |frame|
            && pkt.payload == CopyOf(frame, Times(i, p), ChunkSize(|frame|, i, p))
            && |pkt.payload| == ChunkSize(|frame|, i, p) <= p
            && pkt.size == |pkt.payload| + c.header
            && pkt.slidingWindow == |frame|
  {
    SplitArithmetic(c, |frame|, i);
    CountIsExact(|frame|, c.Payload());
    ChunkBounds(|frame|, i, c.Payload(), PacketCount(|frame|, c.Payload()));
    hide PacketCount, DataSize;
  }

  lemma {:induction false} JoinedIsPrefix(c: Config, frame: seq<byte>, k: nat)
    requires c.Ok() && k <= PacketCount(|frame|, c.Payload())
    requires |frame| <= 65535 * c.Payload()
    ensures Joined(c, frame, k) == frame[..Min(Times(k, c.Payload()), |frame|)]
  {
    hide MakePacket, PacketCount, ChunkSize;
    if k > 0 {
      JoinedIsPrefix(c, frame, k - 1);
      PayloadIsSlice(c, frame, 0, k - 1, 0);
      var from, to := Times(k - 1, c.Payload()), Min(Times(k, c.Payload()), |frame|);
      CopyIsSlice(frame, from, to - from);
      assert frame[..from] + frame[from..to] == frame[..to];
    }
  }

  lemma {:induction false} JoinedLength(c: Config, frame: seq<byte>, k: nat)
    requires c.Ok() && k <= PacketCount(|frame|, c.Payload())
    ensures |Joined(c, frame, k)| <= Times(k, c.Payload())
  {
    if k > 0 {
      JoinedLength(c, frame, k - 1);
      ReadsInside(|frame|, k - 1, c.Payload());
      MulNext(k - 1, c.Payload());
    }
  }

  /**
    The packets of a frame carry the frame if and only if it needs no more
    packets than a WORD can count; a larger frame is sent truncated.
   */
  lemma SplitIsLosslessIff(c: Config, frame: seq<byte>)
    requires c.Ok() && OffsetsAreInts(|frame|, c.Payload())
    ensures Joined(c, frame, PacketCount(|frame|, c.Payload())) == frame
       <==> |frame| <= 65535 * c.Payload()
  {
    var p := c.Payload();
    var count := PacketCount(|frame|, p);
    if |frame| <= 65535 * p {
      CountIsExact(|frame|, p);
      JoinedIsPrefix(c, frame, count);
    } else {
      JoinedLength(c, frame, count);
      MulMono(count, 65535, p);
      TimesIsProduct(65535, p);
    }
  }

  /** With the packets the programs are built for no product overflows, so the limit is 65535 packets for any frame. */
  lemma DeployedSplitIsLosslessIff(frame: seq<byte>)
    ensures Joined(DEPLOYED, frame, PacketCount(|frame|, 4060)) == frame <==> |frame| <= 65535 * 4060
  {
    assert OffsetsAreInts(|frame|, 4060) by {
      hide Ceil, Times;
      var count := PacketCount(|frame|, 4060);
      if count > 0 {
        TimesIsProduct(count - 1, 4060);
      }
    }
    SplitIsLosslessIff(DEPLOYED, frame);
  }

  /** What packet i of a frame has to be, field by field. */
  ghost predicate Describes(c: Config, frame: seq<byte>, f: nat, i: nat, sequenceNumber: nat, pkt: Packet)
    requires c.Ok()
  {
    var (p, at) := (c.Payload(), Times(i, c.Payload()));
    && pkt.version == 1 && pkt.kind == 1 && pkt.streamType == c.streamType
    && pkt.frameNumber == f && pkt.offset == i && pkt.sequenceNumber == sequenceNumber
    && pkt.slidingWindow == |frame|
    && at + |pkt.payload| == Min(at + p, |frame|)
    && pkt.payload == frame[at..at + |pkt.payload|]
    && pkt.size == c.header + |pkt.payload|
    && pkt.totalPackets > 0 && Times(pkt.totalPackets - 1, p) < |frame| <= Times(pkt.totalPackets, p)
    && pkt.flags == if at + |pkt.payload| == |frame| then 1 else 0
  }

  /**
    Every header of a frame tells the receiver where its payload belongs, the
    frame's size, the number of its packets, and, on the last packet only, that
    it is the last.
   */
  lemma HeadersDescribeFrame(c: Config, frame: seq<byte>, f: nat, i: nat, sequenceNumber: nat)
    requires c.Ok() && |frame| <= 65535 * c.Payload() && i < PacketCount(|frame|, c.Payload())
    ensures Describes(c, frame, f, i, sequenceNumber, MakePacket(c, frame, f, i, sequenceNumber))
  {
    var p := c.Payload();
    var count := PacketCount(|frame|, p);
    PayloadIsSlice(c, frame, f, i, sequenceNumber);
    CopyIsSlice(frame, Times(i, p), ChunkSize(|frame|, i, p));
    CountIsExact(|frame|, p);
    MulNext(count - 1, p);
    MulNext(i, p);
    if i < count - 1 {
      MulMono(i + 1, count - 1, p);
    }
  }

  /** With the sizes the programs are built with: no datagram exceeds 4096 bytes, 36 of them header, and all but the last are full. */
  lemma DeployedPackets(frame: seq<byte>, f: nat, i: nat, sequenceNumber: nat)
    requires |frame| <= 65535 * 4060 && i < PacketCount(|frame|, 4060)
    ensures var pkt := MakePacket(DEPLOYED, frame, f, i, sequenceNumber);
            && pkt.size == 36 + |pkt.payload| <= 4096
            && (pkt.flags == 0 ==> pkt.size == 4096)
            && pkt.kind == pkt.streamType == 1
  {
    HeadersDescribeFrame(DEPLOYED, frame, f, i, sequenceNumber);
    hide MakePacket, PacketCount, Times;
  }

  /**
    What a header says of a frame of any size: the size as a DWORD, the number of
    packets as a WORD, and the flag on the last of the packets so counted.
   */
  lemma HeadersOfAnyFrame(c: Config, frame: seq<byte>, f: nat, i: nat, sequenceNumber: nat)
    requires c.Ok() && i < PacketCount(|frame|, c.Payload())
    ensures var (n, p, pkt) := (|frame|, c.Payload(), MakePacket(c, frame, f, i, sequenceNumber));
            && pkt.version == 1 && pkt.kind == 1 && pkt.streamType == c.streamType
            && pkt.frameNumber == f && pkt.offset == i && pkt.sequenceNumber == sequenceNumber
            && pkt.slidingWindow == n % 0x1_0000_0000
            && pkt.totalPackets == ((n + p - 1) / p) % 0x1_0000
            && pkt.size == (c.header + |pkt.payload|) % 0x1_0000
            && Times(i, p) + |pkt.payload| <= n
            && (n < 0x1_0000_0000 ==> |pkt.payload| == Min(p, n - Times(i, p)))
            && pkt.flags == if i + 1 == pkt.totalPackets then 1 else 0
  {
    hide Word, Dword, SizeT, Quotient, Times, DataSize;
    var (n, p) := (|frame|, c.Payload());
    ReadsInside(n, i, p);
    CastsAreRemainders(n);
    CastsAreRemainders(Ceil(n, p));
    CastsAreRemainders(DataSize(n, i, p) + c.header);
    QuotientIsDivision(n + p - 1, p);
  }

  /**
    A receiver that places chunk i at i times a stride restores every chunk to its
    source position if and only if the stride is the payload size or there is
    only one chunk.
   */
  lemma StrideRestoresIff(c: Config, n: nat, stride: nat)
    requires c.Ok() && n <= 65535 * c.Payload()
    ensures (forall i :: 0 <= i < PacketCount(n, c.Payload()) ==> Times(i, stride) == Times(i, c.Payload()))
       <==> stride == c.Payload() || n <= c.Payload()
  {
    var p := c.Payload();
    var count := PacketCount(n, p);
    CountIsExact(n, p);
    if count > 1 {
      MulMono(1, count - 1, p);
      MulNext(count - 1, p);
      if forall i :: 0 <= i < count ==> Times(i, stride) == Times(i, p) {
        assert Times(1, stride) == Times(1, p);
      }
    } else {
      MulMono(count, 1, p);
    }
  }
}

/**
  The numbering of a whole stream. A session fixes the frames that the host
  will encode, in order; sendStream gives its packets consecutive sequence
  numbers, so a number codes a frame and an offset in it.
 */
module Sequencing {
  import opened Words
  import opened Packets

  datatype Session = Session(config: Config, frames: seq<seq<byte>>) {

    /** Frames the split is exact for, and too few packets for a DWORD to wrap. */
    predicate Ok() {
      && config.Ok()
      && (forall f :: 0 <= f < |frames| ==> Fits(|frames[f]|, config.Payload()))
      && |frames| < DWORD_LIMIT
      && PacketsBefore(|frames|) < DWORD_LIMIT
    }

    function P(): nat
      requires config.Ok()
    {
      config.Payload()
    }

    /** The number of packets of frame f. */
    function Count(f: nat): nat
      requires config.Ok() && f < |frames|
    {
      PacketCount(|frames[f]|, P())
    }

    function PacketsBefore(f: nat): nat
      requires config.Ok() && f <= |frames|
    {
      if f == 0 then 0 else PacketsBefore(f - 1) + Count(f - 1)
    }

    function Total(): nat
      requires config.Ok()
    {
      PacketsBefore(|frames|)
    }

    predicate Valid(f: nat, i: nat)
      requires config.Ok()
    {
      f < |frames| && i < Count(f)
    }

    function SeqOf(f: nat, i: nat): nat
      requires config.Ok() && f <= |frames|
    {
      PacketsBefore(f) + i
    }

    /** Packet i of frame f as the session sends it. */
    function PacketAt(f: nat, i: nat): Packet
      requires config.Ok() && Valid(f, i)
    {
      MakePacket(config, frames[f], f, i, SeqOf(f, i))
    }

    /** The frame and offset with sequence number k, searched among the first f frames. */
    function Locate(f: nat, k: nat): (r: (nat, nat))
      requires config.Ok() && f <= |frames| && k < PacketsBefore(f)
      ensures r.0 < f && Valid(r.0, r.1) && SeqOf(r.0, r.1) == k
    {
      if k >= PacketsBefore(f - 1) then (f - 1, k - PacketsBefore(f - 1)) else Locate(f - 1, k)
    }

    /** The packet whose sequence number is k. */
    function PacketOf(k: nat): Packet
      requires config.Ok() && k < Total()
    {
      var (f, i) := Locate(|frames|, k);
      PacketAt(f, i)
    }

    /** A packet of this session, unaltered. */
    predicate Genuine(pkt: Packet)
      requires config.Ok()
    {
      Valid(pkt.frameNumber, pkt.offset) && pkt == PacketAt(pkt.frameNumber, pkt.offset)
    }
  }

  /** Which sessions are covered: all that the types of the source allow, with frames that the split is exact for. */
  lemma SessionsCovered(s: Session)
    requires s.config.header <= 127 && s.config.header < s.config.chunk <= 65535
    requires forall f :: 0 <= f < |s.frames| ==> |s.frames[f]| < 0x8000_0000 && |s.frames[f]| <= 65535 * (s.config.chunk - s.config.header)
    requires |s.frames| < 0x1_0000_0000
    ensures s.config.Ok() && (s.Total() < 0x1_0000_0000 ==> s.Ok())
  {
    hide PacketCount;
  }

  lemma {:induction false} PacketsBeforeMono(s: Session, f: nat, g: nat)
    requires s.config.Ok() && f <= g <= |s.frames|
    ensures s.PacketsBefore(f) <= s.PacketsBefore(g)
  {
    if f < g {
      PacketsBeforeMono(s, f, g - 1);
    }
  }

  /** Numbers grow with the frame, and within the frame with the offset. */
  lemma SeqOfOrders(s: Session, f: nat, i: nat, g: nat, j: nat)
    requires s.config.Ok() && s.Valid(f, i) && s.Valid(g, j)
    ensures s.SeqOf(f, i) < s.SeqOf(g, j) <==> f < g || (f == g && i < j)
    ensures s.SeqOf(f, i) < s.Total()
  {
    PacketsBeforeMono(s, f + 1, |s.frames|);
    if f < g {
      PacketsBeforeMono(s, f + 1, g);
    } else if g < f {
      PacketsBeforeMono(s, g + 1, f);
    }
  }

  lemma NumberOfPacket(s: Session, f: nat, i: nat)
    requires s.Ok() && s.Valid(f, i)
    ensures s.SeqOf(f, i) < s.Total()
    ensures s.Locate(|s.frames|, s.SeqOf(f, i)) == (f, i)
    ensures s.PacketOf(s.SeqOf(f, i)) == s.PacketAt(f, i)
  {
    SeqOfOrders(s, f, i, f, i);
    var (g, j) := s.Locate(|s.frames|, s.SeqOf(f, i));
    SeqOfOrders(s, f, i, g, j);
    SeqOfOrders(s, g, j, f, i);
  }

  lemma PacketOfNumber(s: Session, k: nat)
    requires s.Ok() && k < s.Total()
    ensures s.PacketOf(k).sequenceNumber == k
    ensures s.Genuine(s.PacketOf(k))
    ensures s.SeqOf(s.PacketOf(k).frameNumber, s.PacketOf(k).offset) == k
  {
  }

  /**
    Below 2^32 packets the number and the pair of frame and offset determine
    each other, and the packet with a number carries exactly that number.
   */
  lemma SequenceNumbersAreACode(s: Session)
    requires s.Ok()
    ensures forall f: nat, i: nat :: s.Valid(f, i) ==>
              s.SeqOf(f, i) < s.Total() && s.Locate(|s.frames|, s.SeqOf(f, i)) == (f, i)
    ensures forall k: nat :: k < s.Total() ==>
              && s.PacketOf(k).sequenceNumber == k
              && s.Genuine(s.PacketOf(k))
              && s.SeqOf(s.PacketOf(k).frameNumber, s.PacketOf(k).offset) == k
  {
    forall f: nat, i: nat | s.Valid(f, i)
      ensures s.SeqOf(f, i) < s.Total()
      ensures s.Locate(|s.frames|, s.SeqOf(f, i)) == (f, i)
    {
      NumberOfPacket(s, f, i);
    }
    forall k: nat | k < s.Total()
      ensures s.PacketOf(k).sequenceNumber == k && s.Genuine(s.PacketOf(k))
      ensures s.SeqOf(s.PacketOf(k).frameNumber, s.PacketOf(k).offset) == k
    {
      PacketOfNumber(s, k);
    }
  }

  /** Two packets of a session with the same sequence number are the same packet. */
  lemma GenuineByNumber(s: Session, pkt: Packet)
    requires s.Ok() && s.Genuine(pkt)
    ensures pkt.sequenceNumber < s.Total() && pkt == s.PacketOf(pkt.sequenceNumber)
  {
    NumberOfPacket(s, pkt.frameNumber, pkt.offset);
  }
}

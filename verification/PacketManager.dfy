/** The host's packet manager (VideoHost/host.h, VideoHost/host.cpp), field by field and loop by loop. */
module HostPacketManager {
  import opened Words
  import opened Packets
  import opened Sequencing

  const RECENT_PACKETS_SIZE: nat := 200

  /** unordered_map::emplace: a key that is present keeps its packet. */
  function Emplace(recent: map<nat, Packet>, pkt: Packet): map<nat, Packet> {
    if pkt.sequenceNumber in recent then recent else recent[pkt.sequenceNumber := pkt]
  }

  function EmplaceAll(recent: map<nat, Packet>, pkts: seq<Packet>): map<nat, Packet> {
    if pkts == [] then recent else Emplace(EmplaceAll(recent, pkts[..|pkts| - 1]), pkts[|pkts| - 1])
  }

  /** order visits every key of the map once: an iteration of the map. */
  ghost predicate Visits(order: seq<nat>, recent: map<nat, Packet>) {
    && NoDup(order)
    && (forall k :: k in order <==> k in recent)
  }

  /** order has visited every key but the rest once. */
  ghost predicate VisitsAllBut(order: seq<nat>, recent: map<nat, Packet>, rest: set<nat>) {
    && NoDup(order)
    && (forall k :: k in order <==> k in recent && k !in rest)
  }

  lemma VisitsOneMore(order: seq<nat>, recent: map<nat, Packet>, rest: set<nat>, k: nat)
    requires VisitsAllBut(order, recent, rest) && k in rest && rest <= recent.Keys
    ensures VisitsAllBut(order + [k], recent, rest - {k})
  {
  }

  /** The datagrams of one pass over the map. */
  function InOrder(recent: map<nat, Packet>, order: seq<nat>): seq<Packet>
    requires forall k :: k in order ==> k in recent
  {
    seq(|order|, j requires 0 <= j < |order| => recent[order[j]])
  }

  /** What a pass leaves saved. */
  function AfterPass(recent: map<nat, Packet>): map<nat, Packet> {
    if |recent| > RECENT_PACKETS_SIZE then map[] else recent
  }

  /** The first k packets of one frame when the counter stands at first. */
  function FramePackets(c: Config, frame: seq<byte>, frameNumber: nat, first: nat, k: nat): (pkts: seq<Packet>)
    requires c.Ok() && k <= PacketCount(|frame|, c.Payload())
    ensures |pkts| == k
  {
    if k == 0 then []
    else FramePackets(c, frame, frameNumber, first, k - 1) + [MakePacket(c, frame, frameNumber, k - 1, Dword(first + k - 1))]
  }

  lemma FirstPackets(c: Config, frame: seq<byte>, frameNumber: nat, first: nat)
    requires c.Ok()
    ensures FramePackets(c, frame, frameNumber, first, 0) == []
  {
  }

  lemma NextPacket(c: Config, frame: seq<byte>, frameNumber: nat, first: nat, i: nat)
    requires c.Ok() && i < PacketCount(|frame|, c.Payload())
    ensures FramePackets(c, frame, frameNumber, first, i + 1)
         == FramePackets(c, frame, frameNumber, first, i) + [MakePacket(c, frame, frameNumber, i, Dword(first + i))]
  {
  }

  /** The packets of a frame are described by their headers, numbered from where the counter stood. */
  lemma {:induction false} FramePacketsDescribed(c: Config, frame: seq<byte>, frameNumber: nat, first: nat, k: nat)
    requires c.Ok() && |frame| <= 65535 * c.Payload() && k <= PacketCount(|frame|, c.Payload())
    ensures forall i :: 0 <= i < k ==> Describes(c, frame, frameNumber, i, Dword(first + i), FramePackets(c, frame, frameNumber, first, k)[i])
  {
    hide MakePacket, PacketCount, Describes, Dword;
    if k > 0 {
      FramePacketsDescribed(c, frame, frameNumber, first, k - 1);
      HeadersDescribeFrame(c, frame, frameNumber, k - 1, Dword(first + k - 1));
    }
  }

  lemma EmplaceNone(recent: map<nat, Packet>)
    ensures EmplaceAll(recent, []) == recent
  {
  }

  /** Saving one packet more. */
  lemma EmplaceLast(recent: map<nat, Packet>, pkts: seq<Packet>, pkt: Packet)
    ensures EmplaceAll(recent, pkts + [pkt]) == Emplace(EmplaceAll(recent, pkts), pkt)
  {
    assert (pkts + [pkt])[..|pkts|] == pkts;
  }

  /** What sendStream changes: the counter, the saved packets, and what went to sendto. */
  datatype Sending = Sending(sequenceNumber: nat, recent: map<nat, Packet>, wire: seq<Packet>)

  /** Packet i of a frame numbered, sent and saved. */
  function SentNext(c: Config, h: Sending, frame: seq<byte>, frameNumber: nat, i: nat): Sending
    requires c.Ok() && i < PacketCount(|frame|, c.Payload())
  {
    var pkt := MakePacket(c, frame, frameNumber, i, h.sequenceNumber);
    Sending(Dword(h.sequenceNumber + 1), Emplace(h.recent, pkt), h.wire + [pkt])
  }

  /** How the dispatch of a datagram ends: in its handler, or in a call of a null function pointer. */
  datatype Dispatch = Handled | CalledNull

  class PacketManager {
    var recentPackets: map<nat, Packet>
    var sequenceNumber: nat
    /** The datagrams handed to sendto so far. */
    var wire: seq<Packet>

    constructor ()
      ensures recentPackets == map[] && sequenceNumber == 0 && wire == []
    {
      recentPackets := map[];
      sequenceNumber := 0;
      wire := [];
    }

    function Value(): Sending
      reads this
    {
      Sending(sequenceNumber, recentPackets, wire)
    }

    method AddRecentPacket(pkt: Packet)
      modifies this`recentPackets
      ensures pkt.sequenceNumber in old(recentPackets) ==> recentPackets == old(recentPackets)
      ensures pkt.sequenceNumber !in old(recentPackets) ==> recentPackets == old(recentPackets)[pkt.sequenceNumber := pkt]
    {
      if pkt.sequenceNumber !in recentPackets {
        recentPackets := recentPackets[pkt.sequenceNumber := pkt];
      }
    }

    method RemoveRecentPacket(seqNum: nat)
      modifies this`recentPackets
      ensures recentPackets == old(recentPackets) - {seqNum}
    {
      recentPackets := recentPackets - {seqNum};
    }

    /** The packet is sent before it is saved. */
    method SendPacket(pkt: Packet, savePacket: bool)
      modifies this`wire, this`recentPackets
      ensures wire == old(wire) + [pkt]
      ensures recentPackets == if savePacket then Emplace(old(recentPackets), pkt) else old(recentPackets)
    {
      wire := wire + [pkt];
      if savePacket {
        AddRecentPacket(pkt);
      }
    }

    /** The handler of CONTROL packets: an acknowledgement drops the packet it names. */
    method ControlPacketHandler(acked: nat)
      modifies this`recentPackets
      ensures recentPackets == old(recentPackets) - {acked}
    {
      RemoveRecentPacket(acked);
    }

    /**
      handleIncomingPackets with one datagram; the event handler does nothing. For
      a type that has no handler operator[] makes an empty one, which is called.
     */
    method HandleIncomingPacket(kind: nat, number: nat) returns (outcome: Dispatch)
      modifies this`recentPackets
      ensures recentPackets == if kind == 2 then old(recentPackets) - {number} else old(recentPackets)
      ensures outcome == CalledNull <==> kind != 2 && kind != 0
    {
      if kind == PACKET_TYPE_CONTROL {
        ControlPacketHandler(number);
        outcome := Handled;
      } else if kind == PACKET_TYPE_EVENT {
        outcome := Handled;
      } else {
        outcome := CalledNull;
      }
    }

    /** One pass of ackPackets under recentPacketsMutex; order is the iteration order of the map. */
    method AckPass() returns (order: seq<nat>)
      modifies this`wire, this`recentPackets
      ensures Visits(order, old(recentPackets))
      ensures |wire| == |old(wire)| + |order| && old(wire) <= wire
      ensures forall j :: 0 <= j < |order| ==> wire[|old(wire)| + j] == old(recentPackets)[order[j]]
      ensures |old(recentPackets)| <= 200 ==> recentPackets == old(recentPackets)
      ensures |old(recentPackets)| > 200 ==> recentPackets == map[]
    {
      order := [];
      if |recentPackets| == 0 {
        return;
      }
      var rest := recentPackets.Keys;
      while rest != {}
        invariant rest <= recentPackets.Keys
        invariant VisitsAllBut(order, recentPackets, rest)
        invariant recentPackets == old(recentPackets)
        invariant |wire| == |old(wire)| + |order| && old(wire) <= wire
        invariant forall j :: 0 <= j < |order| ==> order[j] in recentPackets && wire[|old(wire)| + j] == recentPackets[order[j]]
      {
        var k :| k in rest;
        VisitsOneMore(order, recentPackets, rest, k);
        hide VisitsAllBut;
        wire := wire + [recentPackets[k]];
        order := order + [k];
        rest := rest - {k};
      }
      if |recentPackets| > RECENT_PACKETS_SIZE {
        recentPackets := map[];
      }
    }

    /** The body of sendStream's inner loop: fill in packet i, advance the counter, send and save. */
    method SendNext(c: Config, frame: seq<byte>, frameNum: nat, i: nat)
      requires c.Ok() && i < PacketCount(|frame|, c.Payload())
      modifies this
      ensures Value() == SentNext(c, old(Value()), frame, frameNum, i)
    {
      var pkt := MakePacket(c, frame, frameNum, i, sequenceNumber);
      sequenceNumber := Dword(sequenceNumber + 1);
      SendPacket(pkt, true);
    }

    /** The body of sendStream's outer loop for one frame. */
    method SendFrame(c: Config, frame: seq<byte>, frameNum: nat)
      requires c.Ok() && OffsetsAreInts(|frame|, c.Payload())
      requires sequenceNumber < DWORD_LIMIT
      modifies this
      ensures var pkts := FramePackets(c, frame, frameNum, old(sequenceNumber), PacketCount(|frame|, c.Payload()));
              && wire == old(wire) + pkts
              && recentPackets == EmplaceAll(old(recentPackets), pkts)
              && sequenceNumber == Dword(old(sequenceNumber) + |pkts|)
      ensures |frame| <= 65535 * c.Payload() ==>
                forall j :: |old(wire)| <= j < |wire| ==>
                  Describes(c, frame, frameNum, j - |old(wire)|, Dword(old(sequenceNumber) + (j - |old(wire)|)), wire[j])
    {
      hide Describes, MakePacket, PacketCount, Dword, Emplace, EmplaceAll, FramePackets, OffsetsAreInts;
      DwordSmall(sequenceNumber);
      var totalPackets := PacketCount(|frame|, c.Payload());
      FirstPackets(c, frame, frameNum, sequenceNumber);
      EmplaceNone(recentPackets);
      ghost var sent, saved, first := wire, recentPackets, sequenceNumber;
      var i := 0;
      while i < totalPackets
        invariant i <= totalPackets
        invariant sequenceNumber == Dword(first + i)
        invariant wire == sent + FramePackets(c, frame, frameNum, first, i)
        invariant recentPackets == EmplaceAll(saved, FramePackets(c, frame, frameNum, first, i))
      {
        DwordAdd(first + i, 1);
        NextPacket(c, frame, frameNum, first, i);
        ghost var pkts, pkt := FramePackets(c, frame, frameNum, first, i), MakePacket(c, frame, frameNum, i, sequenceNumber);
        EmplaceLast(saved, pkts, pkt);
        SendNext(c, frame, frameNum, i);
        assert sent + pkts + [pkt] == sent + (pkts + [pkt]);
        i := i + 1;
      }
      if |frame| <= 65535 * c.Payload() {
        FramePacketsDescribed(c, frame, frameNum, first, totalPackets);
      }
    }

    /**
      sendStream over a whole session, with no acknowledgement in between: the
      k-th datagram on the wire is the packet that the number k codes, and
      every packet is saved under its own number.
     */
    method SendStream(s: Session)
      requires s.Ok() && sequenceNumber == 0 && recentPackets == map[]
      modifies this
      ensures wire == old(wire) + StreamPackets(s, s.Total())
      ensures recentPackets == map k | 0 <= k < s.Total() :: s.PacketOf(k)
      ensures sequenceNumber == s.Total()
    {
      hide MakePacket, PacketCount, Dword, Emplace, EmplaceAll, FramePackets;
      var frameNum := 0;
      EmplaceStream(s, 0);
      while frameNum < |s.frames|
        invariant frameNum <= |s.frames|
        invariant s.PacketsBefore(frameNum) <= s.Total()
        invariant sequenceNumber == s.PacketsBefore(frameNum)
        invariant wire == old(wire) + StreamPackets(s, s.PacketsBefore(frameNum))
        invariant recentPackets == EmplaceAll(map[], StreamPackets(s, s.PacketsBefore(frameNum)))
      {
        FrameIsSendable(s, frameNum);
        FrameIsSegment(s, frameNum);
        SendFrame(s.config, s.frames[frameNum], frameNum);
        frameNum := frameNum + 1;
      }
      EmplaceStream(s, s.Total());
    }
  }

  /** The first n packets of the session, by their numbers. */
  function StreamPackets(s: Session, n: nat): (pkts: seq<Packet>)
    requires s.Ok() && n <= s.Total()
    ensures |pkts| == n
  {
    if n == 0 then [] else StreamPackets(s, n - 1) + [s.PacketOf(n - 1)]
  }

  /** SendFrame may be called on every frame of a session, and the counter never wraps. */
  lemma FrameIsSendable(s: Session, f: nat)
    requires s.Ok() && f < |s.frames|
    ensures OffsetsAreInts(|s.frames[f]|, s.config.Payload())
    ensures s.PacketsBefore(f) <= s.PacketsBefore(f + 1) <= s.Total() < DWORD_LIMIT
    ensures Dword(s.PacketsBefore(f) + s.Count(f)) == s.PacketsBefore(f + 1)
  {
    FittingOffsetsAreInts(|s.frames[f]|, s.config.Payload());
    PacketsBeforeMono(s, f + 1, |s.frames|);
  }

  /** What SendFrame sends is the stream's next segment. */
  lemma FrameIsSegment(s: Session, f: nat)
    requires s.Ok() && f < |s.frames| && s.PacketsBefore(f) <= s.PacketsBefore(f + 1) <= s.Total()
    ensures var sent, pkts := StreamPackets(s, s.PacketsBefore(f)), FramePackets(s.config, s.frames[f], f, s.PacketsBefore(f), s.Count(f));
            && StreamPackets(s, s.PacketsBefore(f + 1)) == sent + pkts
            && EmplaceAll(map[], sent + pkts) == EmplaceAll(EmplaceAll(map[], sent), pkts)
  {
    hide MakePacket, PacketCount, StreamPackets, FramePackets, EmplaceAll;
    SegmentGrows(s, f, s.Count(f));
    EmplaceJoins(map[], StreamPackets(s, s.PacketsBefore(f)), FramePackets(s.config, s.frames[f], f, s.PacketsBefore(f), s.Count(f)));
  }

  lemma {:induction false} SegmentGrows(s: Session, f: nat, k: nat)
    requires s.Ok() && f < |s.frames| && k <= s.Count(f) && s.PacketsBefore(f) + k <= s.Total()
    ensures StreamPackets(s, s.PacketsBefore(f) + k)
         == StreamPackets(s, s.PacketsBefore(f)) + FramePackets(s.config, s.frames[f], f, s.PacketsBefore(f), k)
  {
    hide MakePacket, PacketCount;
    if k > 0 {
      SegmentGrows(s, f, k - 1);
      NumberOfPacket(s, f, k - 1);
    }
  }

  lemma {:induction false} EmplaceJoins(recent: map<nat, Packet>, a: seq<Packet>, b: seq<Packet>)
    ensures EmplaceAll(EmplaceAll(recent, a), b) == EmplaceAll(recent, a + b)
  {
    if b == [] {
      assert a + b == a;
    } else {
      EmplaceJoins(recent, a, b[..|b| - 1]);
      assert (a + b)[..|a + b| - 1] == a + b[..|b| - 1];
    }
  }

  /** Every packet of the stream up to n, under its own number. */
  function ByNumber(s: Session, n: nat): map<nat, Packet>
    requires s.Ok() && n <= s.Total()
  {
    map k | 0 <= k < n :: s.PacketOf(k)
  }

  lemma NextNumber(s: Session, n: nat)
    requires s.Ok() && 0 < n <= s.Total()
    ensures Emplace(ByNumber(s, n - 1), s.PacketOf(n - 1)) == ByNumber(s, n)
  {
    hide Session.PacketOf;
    PacketOfNumber(s, n - 1);
  }

  lemma NextStreamPacket(s: Session, n: nat)
    requires s.Ok() && 0 < n <= s.Total()
    ensures StreamPackets(s, n) == StreamPackets(s, n - 1) + [s.PacketOf(n - 1)]
  {
    hide Session.PacketOf;
  }

  lemma {:induction false} EmplaceStream(s: Session, n: nat)
    requires s.Ok() && n <= s.Total()
    ensures EmplaceAll(map[], StreamPackets(s, n)) == ByNumber(s, n)
  {
    hide Session.PacketOf, StreamPackets, Emplace, EmplaceAll, ByNumber;
    if n == 0 {
      NothingStreamed(s);
    } else {
      EmplaceStream(s, n - 1);
      EmplaceLast(map[], StreamPackets(s, n - 1), s.PacketOf(n - 1));
      NextStreamPacket(s, n);
      NextNumber(s, n);
    }
  }

  lemma NothingStreamed(s: Session)
    requires s.Ok()
    ensures EmplaceAll(map[], StreamPackets(s, 0)) == ByNumber(s, 0)
  {
    hide Session.PacketOf;
  }
}

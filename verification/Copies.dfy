/**
  What host and network have to do so that no packet of a frame is delivered
  twice: the exact condition on their steps, frame by frame.
 */
module Copies {
  import opened Words
  import opened Packets
  import opened Sequencing
  import Reassembly
  import opened HostPacketManager
  import Transport
  import VideoClient
  import ExactlyOnce
  import Display
  import opened Streaming
  import opened SystemRuns
  import opened Continuations

  /** The network duplicates no packet of frame n, and a pass meets only packets of it that are neither in flight nor received. */
  ghost predicate Careful(t: Transport.State, h: Transport.Step, n: nat) {
    match h
    case DuplicatePacket(pkt) => pkt.frameNumber != n
    case AckPass(_) => forall k :: k in t.recent && t.recent[k].frameNumber == n ==> k !in t.received && t.recent[k] !in t.toClient
    case _ => true
  }

  ghost predicate CarefulRun(s: Session, st: State, steps: seq<Step>, n: nat)
    requires s.config.Ok() && Runs(s, st, steps)
    decreases steps
  {
    steps != [] ==>
      && (steps[0].HostSide? ==> Careful(st.t, steps[0].h, n))
      && CarefulRun(s, Apply(s, st, steps[0]), steps[1..], n)
  }

  /** Of every packet of frame n there is one copy at most, in flight or read. */
  ghost predicate OneCopy(t: Transport.State, n: nat) {
    forall pkt :: pkt in t.toClient && pkt.frameNumber == n ==> t.toClient[pkt] == 1 && pkt.sequenceNumber !in t.received
  }

  ghost predicate FirstCopies(s: Session, st: State, n: nat) {
    TransportOk(s, st) && OneCopy(st.t, n) && NoDup(ExactlyOnce.OffsetsIn(st.c.read, n))
  }

  lemma SendKeepsOneCopy(s: Session, t: Transport.State, n: nat)
    requires Transport.Inv(s, t) && OneCopy(t, n) && Transport.Enabled(s, t, Transport.Send)
    ensures OneCopy(Transport.Apply(s, t, Transport.Send), n)
  {
    hide MakePacket, PacketCount, Session.Genuine, Transport.RecentOk;
    var pkt := MakePacket(s.config, s.frames[t.sender.frame], t.sender.frame, t.sender.index, t.sequenceNumber);
    assert pkt.sequenceNumber == t.sequenceNumber by {
      CarriesItsNumber(s.config, s.frames[t.sender.frame], t.sender.frame, t.sender.index, t.sequenceNumber);
    }
    assert pkt !in t.toClient;
  }

  lemma CarriesItsNumber(c: Config, frame: seq<byte>, f: nat, i: nat, sequenceNumber: nat)
    requires c.Ok() && i < PacketCount(|frame|, c.Payload())
    ensures MakePacket(c, frame, f, i, sequenceNumber).sequenceNumber == sequenceNumber
  {
  }

  lemma PassKeepsOneCopy(s: Session, t: Transport.State, order: seq<nat>, n: nat)
    requires Transport.Inv(s, t) && OneCopy(t, n) && Transport.Enabled(s, t, Transport.AckPass(order))
    requires Careful(t, Transport.AckPass(order), n)
    ensures OneCopy(Transport.Apply(s, t, Transport.AckPass(order)), n)
  {
    var u := Transport.Apply(s, t, Transport.AckPass(order));
    forall pkt | pkt in u.toClient && pkt.frameNumber == n
      ensures u.toClient[pkt] == 1 && pkt.sequenceNumber !in u.received
    {
      Transport.PassResendsEachOnce(s, t, order, pkt);
    }
    hide Transport.Inv, InOrder, Visits;
  }

  lemma OthersKeepOneCopy(s: Session, t: Transport.State, h: Transport.Step, n: nat)
    requires s.config.Ok() && OneCopy(t, n) && Transport.Enabled(s, t, h) && Careful(t, h, n)
    requires !h.Send? && !h.AckPass? && !h.Receive?
    ensures OneCopy(Transport.Apply(s, t, h), n)
  {
    hide MakePacket, PacketCount, InOrder;
  }

  lemma HostKeepsOneCopy(s: Session, t: Transport.State, h: Transport.Step, n: nat)
    requires s.Ok() && Transport.Inv(s, t) && OneCopy(t, n) && Transport.Enabled(s, t, h) && !h.Receive? && Careful(t, h, n)
    ensures OneCopy(Transport.Apply(s, t, h), n)
  {
    hide Transport.Inv, OneCopy, Transport.Enabled, Transport.Apply, Careful;
    match h
    case Send => SendKeepsOneCopy(s, t, n);
    case AckPass(order) => PassKeepsOneCopy(s, t, order, n);
    case _ => OthersKeepOneCopy(s, t, h, n);
  }

  /** The only copy is read: no other packet with its number is in flight. */
  lemma ReceiveKeepsOneCopy(s: Session, t: Transport.State, pkt: Packet, n: nat)
    requires Transport.Inv(s, t) && OneCopy(t, n) && pkt in t.toClient
    ensures OneCopy(Transport.Apply(s, t, Transport.Receive(pkt)), n)
  {
    hide MakePacket, PacketCount, Session.Genuine, Session.PacketOf, Transport.SenderOk, Transport.RecentOk;
    var u := Transport.Apply(s, t, Transport.Receive(pkt));
    forall other | other in u.toClient && other.frameNumber == n
      ensures u.toClient[other] == 1 && other.sequenceNumber !in u.received
    {
      GenuineByNumber(s, other);
      GenuineByNumber(s, pkt);
    }
  }

  lemma StepKeepsOneCopy(s: Session, st: State, step: Step, n: nat)
    requires s.Ok() && Transport.Inv(s, st.t) && OneCopy(st.t, n) && Enabled(s, st, step)
    requires step.HostSide? ==> Careful(st.t, step.h, n)
    ensures OneCopy(Apply(s, st, step).t, n)
  {
    hide Transport.Inv, OneCopy, Transport.Apply, VideoClient.Apply, VideoClient.Enabled, Careful;
    match step
    case HostSide(h) => HostKeepsOneCopy(s, st.t, h, n);
    case ClientSide(v) =>
    case Deliver(pkt) => ReceiveKeepsOneCopy(s, st.t, pkt, n);
  }

  /** A packet of a frame is among those read exactly if its offset is among theirs. */
  lemma ReadOffset(s: Session, read: seq<Packet>, pkt: Packet)
    requires s.Ok() && s.Genuine(pkt) && forall j :: 0 <= j < |read| ==> s.Genuine(read[j])
    ensures pkt.kind == PACKET_TYPE_STREAM
    ensures pkt.offset in ExactlyOnce.OffsetsIn(read, pkt.frameNumber) <==> pkt in read
  {
    Reassembly.GenuineShape(s, pkt.frameNumber, pkt.offset);
    hide MakePacket, PacketCount, ExactlyOnce.OffsetsIn;
    ExactlyOnce.OffsetsOfPackets(s, read, pkt.frameNumber);
  }

  lemma NumberIsRead(read: seq<Packet>, pkt: Packet)
    ensures pkt in read ==> pkt.sequenceNumber in ReadNumbers(read)
  {
  }

  lemma StepReadsOnce(s: Session, st: State, step: Step, n: nat)
    requires s.Ok() && TransportOk(s, st) && OneCopy(st.t, n) && NoDup(ExactlyOnce.OffsetsIn(st.c.read, n)) && Enabled(s, st, step)
    ensures NoDup(ExactlyOnce.OffsetsIn(Apply(s, st, step).c.read, n))
  {
    hide Transport.Apply, Transport.Enabled, VideoClient.Apply, VideoClient.Enabled, ExactlyOnce.OffsetsIn;
    match step
    case HostSide(h) =>
    case ClientSide(v) => ReadsOnlyDeliveries(s, st.c, v);
    case Deliver(pkt) => DeliveredOnce(s, st, pkt, n);
  }

  lemma DeliveredOnce(s: Session, st: State, pkt: Packet, n: nat)
    requires s.Ok() && TransportOk(s, st) && OneCopy(st.t, n) && NoDup(ExactlyOnce.OffsetsIn(st.c.read, n)) && Enabled(s, st, Deliver(pkt))
    ensures NoDup(ExactlyOnce.OffsetsIn(Apply(s, st, Deliver(pkt)).c.read, n))
  {
    hide Transport.SenderOk, Transport.RecentOk, Session.Genuine, ReadNumbers, ExactlyOnce.OffsetsIn;
    ExactlyOnce.OffsetsInNext(st.c.read, pkt, n);
    ReadOffset(s, st.c.read, pkt);
    NumberIsRead(st.c.read, pkt);
  }

  lemma StepKeepsFirstCopies(s: Session, st: State, step: Step, n: nat)
    requires FirstCopies(s, st, n) && Enabled(s, st, step) && (step.HostSide? ==> Careful(st.t, step.h, n))
    ensures FirstCopies(s, Apply(s, st, step), n)
  {
    assert s.Ok() && Transport.Inv(s, st.t);
    hide Transport.Inv, TransportOk, OneCopy, Apply, Enabled, Careful, ExactlyOnce.OffsetsIn;
    StepKeepsTransportOk(s, st, step);
    StepKeepsOneCopy(s, st, step, n);
    StepReadsOnce(s, st, step, n);
  }

  lemma {:induction false} RunKeepsFirstCopies(s: Session, st: State, steps: seq<Step>, n: nat)
    requires s.Ok() && FirstCopies(s, st, n) && Runs(s, st, steps) && CarefulRun(s, st, steps, n)
    ensures FirstCopies(s, After(s, st, steps), n)
    decreases steps
  {
    hide FirstCopies, Enabled, Apply, Careful;
    if steps != [] {
      StepKeepsFirstCopies(s, st, steps[0], n);
      RunKeepsFirstCopies(s, Apply(s, st, steps[0]), steps[1..], n);
    }
  }

  lemma StartsWithFirstCopies(s: Session, n: nat)
    requires s.Ok()
    ensures FirstCopies(s, Init(), n)
  {
    hide TransportOk;
    StartsTransported(s);
  }

  /** A run that is careful of frame n delivers none of its packets twice. */
  lemma CarefulRunsDeliverOnce(s: Session, steps: seq<Step>, n: nat)
    requires s.Ok() && Runs(s, Init(), steps) && CarefulRun(s, Init(), steps, n)
    ensures NoDup(DeliveredOf(steps, n))
  {
    StartsWithFirstCopies(s, n);
    ReachableFlows(s, steps);
    hide Runs, After, CarefulRun, TransportOk, OneCopy, VideoClient.FlowOk, FlowOk, ExactlyOnce.OffsetsIn, Delivered;
    RunKeepsFirstCopies(s, Init(), steps, n);
  }

  /**
    So when the network duplicates no packet of a frame and the acker resends
    only those of its packets that were lost, whatever happens to other frames:
    every decode of it is of the host's frame, it is decoded and painted once at
    most, and a client that has worked everything off has decoded it exactly if
    it was delivered in full.
   */
  lemma CarefulRunsAreExact(s: Session, steps: seq<Step>, n: nat)
    requires s.Ok() && Runs(s, Init(), steps) && CarefulRun(s, Init(), steps, n)
    ensures var c := After(s, Init(), steps).c;
            && (forall j :: 0 <= j < |c.decoded| && c.decoded[j].frame == n ==> n < |s.frames| && c.decoded[j].bytes == s.frames[n])
            && Display.DecodedOnce(c.decoded, n)
            && (var log := c.screen.log;
                forall i, j :: 0 <= i < j < |log| && log[i].Painted? && log[j].Painted? ==> !(log[i].p.number == n && log[j].p.number == n))
            && (VideoClient.Quiescent(c) ==> (ExactlyOnce.DecodedIn(c, n) <==> AllDelivered(s, steps, n)))
  {
    CarefulRunsDeliverOnce(s, steps, n);
    hide Runs, After, Delivered, CarefulRun, VideoClient.Quiescent, ExactlyOnce.DecodedIn, AllDelivered, Display.DecodedOnce, ExactlyOnce.OffsetsIn;
    ExactlyOnceDelivery(s, steps, n);
    var c := After(s, Init(), steps).c;
    forall i, j | 0 <= i < j < |c.screen.log| && c.screen.log[i].Painted? && c.screen.log[j].Painted?
      ensures !(c.screen.log[i].p.number == n && c.screen.log[j].p.number == n)
    {
      if c.screen.log[i].p.number == n {
        NoFrameIsPaintedTwice(s, steps, i, j);
      }
    }
    if VideoClient.Quiescent(c) {
      QuiescentClientHasDecodedAll(s, steps, n);
    }
  }

  // ----- And nothing less will do -----

  /** A packet read once more repeats its offset. */
  lemma ReadAgainRepeats(s: Session, read: seq<Packet>, pkt: Packet)
    requires s.Ok() && s.Genuine(pkt) && pkt in read && forall j :: 0 <= j < |read| ==> s.Genuine(read[j])
    ensures !NoDup(ExactlyOnce.OffsetsIn(read + [pkt], pkt.frameNumber))
  {
    hide Session.Genuine, ExactlyOnce.OffsetsIn;
    ReadOffset(s, read, pkt);
    ExactlyOnce.OffsetsInNext(read, pkt, pkt.frameNumber);
    var offs := ExactlyOnce.OffsetsIn(read, pkt.frameNumber);
    var j :| 0 <= j < |offs| && offs[j] == pkt.offset;
    assert (offs + [pkt.offset])[j] == (offs + [pkt.offset])[|offs|];
  }

  lemma ReceiveTakesOne(s: Session, t: Transport.State, pkt: Packet)
    requires s.config.Ok() && pkt in t.toClient
    ensures Transport.Apply(s, t, Transport.Receive(pkt)).toClient == t.toClient - multiset{pkt}
  {
  }

  /** Two copies in flight can both be delivered. */
  lemma CanDeliverTwice(s: Session, st: State, pkt: Packet) returns (more: seq<Step>)
    requires CanGoOn(s, st) && st.t.toClient[pkt] >= 2
    ensures Runs(s, st, more) && AddsNoCopy(more) && Delivered(more) == [pkt, pkt]
  {
    hide CanGoOn, FlowOk, TransportOk, VideoClient.FlowOk, Runs, After, Delivered, Transport.Apply;
    GoingOnIsOk(s, st);
    ReceiveTakesOne(s, st.t, pkt);
    var a := CanDeliver(s, st, pkt);
    var b := CanDeliver(s, After(s, st, a), pkt);
    RunsJoin(s, st, a, b);
    more := a + b;
  }

  /** The packet of which a careless step makes another copy. */
  lemma CopiedPacket(s: Session, st: State, h: Transport.Step, n: nat) returns (pkt: Packet)
    requires s.Ok() && TransportOk(s, st) && Enabled(s, st, HostSide(h)) && !Careful(st.t, h, n)
    ensures pkt.frameNumber == n && s.Genuine(pkt)
    ensures var u := Apply(s, st, HostSide(h)); u.t.toClient[pkt] >= 2 || (u.t.toClient[pkt] >= 1 && pkt in st.c.read)
  {
    if h.DuplicatePacket? {
      pkt := h.pkt;
    } else {
      var k :| k in st.t.recent && st.t.recent[k].frameNumber == n && (k in st.t.received || st.t.recent[k] in st.t.toClient);
      pkt := st.t.recent[k];
      SavedIsNumbered(s, st.t, k);
      Transport.PassResendsEachOnce(s, st.t, h.order, pkt);
      if pkt !in st.t.toClient {
        ReceivedWasRead(s, st, k);
      }
    }
  }

  lemma SavedIsNumbered(s: Session, t: Transport.State, k: nat)
    requires Transport.Inv(s, t) && k in t.recent
    ensures k < s.Total() && t.recent[k] == s.PacketOf(k) && s.PacketOf(k).sequenceNumber == k && s.Genuine(t.recent[k])
  {
    hide MakePacket, PacketCount, Session.PacketAt, Session.Locate;
    PacketOfNumber(s, k);
  }

  lemma ReceivedWasRead(s: Session, st: State, k: nat)
    requires s.Ok() && TransportOk(s, st) && k in st.t.received && k < s.Total()
    ensures s.PacketOf(k) in st.c.read
  {
    hide Transport.Inv, MakePacket, PacketCount, Session.PacketOf, Session.Genuine;
    var j :| 0 <= j < |st.c.read| && st.c.read[j].sequenceNumber == k;
    GenuineByNumber(s, st.c.read[j]);
  }

  /** A packet of which two copies are about can be read twice. */
  lemma CopiesCanBeRead(s: Session, st: State, pkt: Packet) returns (more: seq<Step>)
    requires CanGoOn(s, st) && s.config.Ok() && s.Genuine(pkt)
    requires st.t.toClient[pkt] >= 2 || (st.t.toClient[pkt] >= 1 && pkt in st.c.read)
    ensures Runs(s, st, more) && AddsNoCopy(more)
    ensures !NoDup(ExactlyOnce.OffsetsIn(st.c.read + Delivered(more), pkt.frameNumber))
  {
    hide FlowOk, CanGoOn, Runs, After, Delivered, Session.Genuine, ExactlyOnce.OffsetsIn;
    ReadsAreGenuine(s, st);
    if st.t.toClient[pkt] >= 2 {
      more := CanDeliverTwice(s, st, pkt);
      assert st.c.read + [pkt, pkt] == (st.c.read + [pkt]) + [pkt];
      assert (st.c.read + [pkt])[|st.c.read|] == pkt;
      ReadAgainRepeats(s, st.c.read + [pkt], pkt);
    } else {
      more := CanDeliver(s, st, pkt);
      ReadAgainRepeats(s, st.c.read, pkt);
    }
  }

  lemma ReadsAreGenuine(s: Session, st: State)
    requires CanGoOn(s, st)
    ensures s.Ok() && forall j :: 0 <= j < |st.c.read| ==> s.Genuine(st.c.read[j])
  {
    hide FlowOk, Session.Genuine, Transport.Inv;
  }

  /** After a careless step a packet of the frame can be delivered twice, with no further copy made. */
  lemma CarelessStepRedelivers(s: Session, st: State, h: Transport.Step, n: nat) returns (more: seq<Step>)
    requires CanGoOn(s, st) && Enabled(s, st, HostSide(h)) && !Careful(st.t, h, n)
    ensures Runs(s, Apply(s, st, HostSide(h)), more) && AddsNoCopy(more)
    ensures !NoDup(ExactlyOnce.OffsetsIn(st.c.read + Delivered(more), n))
  {
    GoingOnIsOk(s, st);
    hide FlowOk, VideoClient.FlowOk, TransportOk, CanGoOn, Enabled, Apply, Careful, Runs, Delivered, Session.Genuine, ExactlyOnce.OffsetsIn;
    GoesOnAfterHost(s, st, h);
    HostReadsNothing(s, st, h);
    var pkt := CopiedPacket(s, st, h, n);
    more := CopiesCanBeRead(s, Apply(s, st, HostSide(h)), pkt);
  }

  lemma {:induction false} NoCopyIsCareful(s: Session, st: State, steps: seq<Step>, n: nat)
    requires s.config.Ok() && Runs(s, st, steps) && AddsNoCopy(steps)
    ensures CarefulRun(s, st, steps, n)
    decreases steps
  {
    hide Enabled, Apply;
    if steps != [] {
      assert steps[0] in steps;
      assert forall step :: step in steps[1..] ==> step in steps;
      NoCopyIsCareful(s, Apply(s, st, steps[0]), steps[1..], n);
    }
  }

  /** After a careful step no continuation without another copy delivers a packet of the frame twice. */
  lemma CarefulStepIsHarmless(s: Session, st: State, h: Transport.Step, more: seq<Step>, n: nat)
    requires s.Ok() && FirstCopies(s, st, n) && Enabled(s, st, HostSide(h)) && Careful(st.t, h, n)
    requires AddsNoCopy(more) && Runs(s, Apply(s, st, HostSide(h)), more)
    ensures NoDup(ExactlyOnce.OffsetsIn(st.c.read + Delivered(more), n))
  {
    hide Enabled, Apply, Careful, TransportOk, OneCopy, Runs, After, Delivered, CarefulRun, ExactlyOnce.OffsetsIn;
    var u := Apply(s, st, HostSide(h));
    StepKeepsFirstCopies(s, st, HostSide(h), n);
    NoCopyIsCareful(s, u, more, n);
    RunKeepsFirstCopies(s, u, more, n);
    HostReadsNothing(s, st, h);
    RunReads(s, u, more);
  }

  lemma HostReadsNothing(s: Session, st: State, h: Transport.Step)
    requires s.config.Ok() && Enabled(s, st, HostSide(h))
    ensures Apply(s, st, HostSide(h)).c == st.c
  {
  }

  /**
    The exact condition: at a step of host or network in a run that was careful
    of frame n so far, a packet of it can come to be delivered twice, without any
    further duplication or resending, if and only if the step duplicates a
    packet of n or is a pass that meets one in flight or received.
   */
  lemma RedeliveryIff(s: Session, steps: seq<Step>, h: Transport.Step, n: nat)
    requires s.Ok() && Runs(s, Init(), steps) && CarefulRun(s, Init(), steps, n) && LoadWithin(s, Init(), steps)
    requires Enabled(s, After(s, Init(), steps), HostSide(h))
    ensures (exists more ::
               && AddsNoCopy(more)
               && Runs(s, Apply(s, After(s, Init(), steps), HostSide(h)), more)
               && !NoDup(DeliveredOf(steps + ([HostSide(h)] + more), n)))
       <==> !Careful(After(s, Init(), steps).t, h, n)
  {
    var st := After(s, Init(), steps);
    ReachedCarefully(s, steps, n);
    hide Runs, After, Delivered, CarefulRun, LoadWithin, Enabled, Apply, Careful, FirstCopies, CanGoOn, ExactlyOnce.OffsetsIn;
    forall more | AddsNoCopy(more) && Runs(s, Apply(s, st, HostSide(h)), more)
      ensures Delivered(steps + ([HostSide(h)] + more)) == st.c.read + Delivered(more)
      ensures Careful(st.t, h, n) ==> NoDup(ExactlyOnce.OffsetsIn(st.c.read + Delivered(more), n))
    {
      OneStep(s, st, HostSide(h));
      RunsJoin(s, st, [HostSide(h)], more);
      RunsJoin(s, Init(), steps, [HostSide(h)] + more);
      assert [] + Delivered(more) == Delivered(more);
      if Careful(st.t, h, n) {
        CarefulStepIsHarmless(s, st, h, more, n);
      }
    }
    if !Careful(st.t, h, n) {
      var more := CarelessStepRedelivers(s, st, h, n);
    }
  }

  lemma ReachedCarefully(s: Session, steps: seq<Step>, n: nat)
    requires s.Ok() && Runs(s, Init(), steps) && CarefulRun(s, Init(), steps, n) && LoadWithin(s, Init(), steps)
    ensures var st := After(s, Init(), steps); FirstCopies(s, st, n) && CanGoOn(s, st) && st.c.read == Delivered(steps)
  {
    StartsWithFirstCopies(s, n);
    ReachableFlows(s, steps);
    ReleasesInRun(s, steps);
    hide Runs, After, Delivered, CarefulRun, LoadWithin, OneCopy, FlowOk, VideoClient.FlowOk, VideoClient.NoneFailed, VideoClient.Load, ExactlyOnce.OffsetsIn;
    RunKeepsFirstCopies(s, Init(), steps, n);
  }
}

/**
  What the acker's resending does to the client, which does not filter
  repetitions: runs over a network without any fault in which a wrong picture is
  decoded, a frame is queued twice, and a frame delivered in full is lost.
 */
module Redelivery {
  import opened Words
  import opened Arithmetic
  import opened Packets
  import opened Sequencing
  import opened Reassembly
  import opened HostPacketManager
  import SQ = SemaphoreQueue
  import Transport
  import VideoClient
  import ExactlyOnce
  import opened Streaming
  import opened SystemRuns
  import opened Continuations

  // ----- A wrong picture without any fault of the network -----

  lemma ClientStartsIdle()
    ensures Idle(Init().c) && VideoClient.Lookup(Init().c.active, 0) == VideoClient.Life(EMPTY, [])
  {
  }

  /** The host sends its first packet and the client takes it. */
  lemma TakeFirst(s: Session) returns (steps: seq<Step>)
    requires s.Ok() && s.Valid(0, 0)
    ensures Runs(s, Init(), steps) && Faultless(steps) && TookAgain(s, Init().c, After(s, Init(), steps))
  {
    hide TookAgain, Session.PacketAt, Runs, After, Delivered;
    SendFirst(s);
    ClientStartsIdle();
    var send := [HostSide(Transport.Send), HostSide(Transport.Save)];
    var rest := TakeFromNetwork(s, After(s, Init(), send));
    RunsJoin(s, Init(), send, rest);
    steps := send + rest;
  }

  /** The client after it has taken packet 0, with what was delivered into the buffer of frame 0. */
  ghost predicate Holding(s: Session, st: State, offs: seq<nat>, frames: SQ.Queue<nat>)
    requires s.Ok() && s.Valid(0, 0)
  {
    && st.t == Resending(s, multiset{}, st.t.toHost, st.t.received)
    && Idle(st.c) && st.c.decoder.DecoderPolling? && st.c.decoded == []
    && Offsets(s, 0, offs)
    && st.c.active == map[0 := VideoClient.Life(Replay(s, 0, offs), offs)]
    && st.c.frames == frames
  }

  lemma TookIsHolding(s: Session, c: VideoClient.State, u: State, offs: seq<nat>, frames: SQ.Queue<nat>)
    requires s.Ok() && s.Valid(0, 0) && TookAgain(s, c, u)
    requires c.decoder.DecoderPolling? && c.decoded == [] && c.frames == frames && c.active.Keys <= {0}
    requires VideoClient.Lookup(c.active, 0).offsets == offs
    ensures Offsets(s, 0, offs + [0])
    ensures Holding(s, u, offs + [0], if Complete(Replay(s, 0, offs + [0])) then frames.Enqueue(0).Release(SQ.MAXINT) else frames)
  {
    hide MakePacket, PacketCount, Session.PacketAt, Acceptable, Absorb, Complete, Replay, Offsets, Resending;
    assert u.c.active.Keys == {0};
    assert u.c.active[0] == VideoClient.Life(Replay(s, 0, offs + [0]), offs + [0]);
  }

  /** Packet 0 taken for the first time. */
  lemma HoldFirst(s: Session) returns (steps: seq<Step>)
    requires s.Ok() && s.Valid(0, 0)
    ensures Offsets(s, 0, [0]) && Runs(s, Init(), steps) && Faultless(steps)
    ensures Holding(s, After(s, Init(), steps), [0], if Complete(Replay(s, 0, [0])) then SQ.Queue([0], 1, 0) else SQ.Queue([], 0, 0))
  {
    hide TookAgain, Runs, After, Complete, Replay, Holding, Session.PacketAt;
    steps := TakeFirst(s);
    assert [] + [0] == [0];
    TookIsHolding(s, Init().c, After(s, Init(), steps), [], SQ.Queue([], 0, 0));
  }

  /** Packet 0 resent and taken once more. */
  lemma HoldAgain(s: Session, st: State, offs: seq<nat>, frames: SQ.Queue<nat>) returns (steps: seq<Step>)
    requires s.Ok() && s.Valid(0, 0) && Holding(s, st, offs, frames)
    ensures Offsets(s, 0, offs + [0]) && Runs(s, st, steps) && Faultless(steps)
    ensures Holding(s, After(s, st, steps), offs + [0], if Complete(Replay(s, 0, offs + [0])) then frames.Enqueue(0).Release(SQ.MAXINT) else frames)
  {
    hide TookAgain, Runs, After, Complete, Replay, Session.PacketAt, Resending;
    steps := TakeResent(s, st);
    TookIsHolding(s, st.c, After(s, st, steps), offs, frames);
  }

  /** The chunk of a frame of two full chunks, once and twice. */
  lemma OneOfTwoChunks(s: Session)
    requires s.Ok() && 0 < |s.frames| && |s.frames[0]| == 2 * s.P()
    ensures s.Valid(0, 0) && Offsets(s, 0, [0]) && Offsets(s, 0, [0, 0])
    ensures !Complete(Replay(s, 0, [0])) && Complete(Replay(s, 0, [0, 0])) && 1 !in [0, 0]
    ensures Replay(s, 0, [0, 0]).chunks == s.frames[0] <==> forall x :: s.P() <= x < 2 * s.P() ==> s.frames[0][x] == 0
  {
    RepetitionHidesALoss(s, 0);
    CountIsExact(|s.frames[0]|, s.P());
    assert s.Count(0) == 2 by {
      if s.Count(0) > 2 {
        MulMono(2, s.Count(0) - 1, s.P());
      }
    }
    assert FirstTwice(2) == [0, 0];
    ReplayTotals(s, 0, [0]);
    hide MakePacket, PacketCount, Replay, Bytes;
    BytesOfFirstTwice(s, 0, 1);
    assert FirstTwice(1) == [0];
    DwordSmall(s.P());
  }

  lemma DecodeHolding(s: Session, st: State, offs: seq<nat>) returns (steps: seq<Step>)
    requires s.Ok() && s.Valid(0, 0) && Holding(s, st, offs, SQ.Queue([0], 1, 0))
    ensures Runs(s, st, steps) && Faultless(steps)
    ensures After(s, st, steps).c.decoded == [VideoClient.Decode(0, Replay(s, 0, offs).chunks, offs, true)]
  {
    hide MakePacket, PacketCount, Session.PacketAt, Replay, Offsets, Resending;
    hide Runs, After, VideoClient.ThreadsRun, VideoClient.ThreadsAfter;
    DecodePhase(s.config, st.c, 0);
    var vs := [VideoClient.SeeFrame, VideoClient.AdmitFrame, VideoClient.DequeueFrame, VideoClient.DecodeFrame(true)];
    LiftRuns(s, st, vs);
    LiftIsFaultless(vs);
    steps := Lift(vs);
  }

  /** The first chunk of a frame of two taken twice: the test has succeeded once. */
  lemma HoldTwice(s: Session) returns (steps: seq<Step>)
    requires s.Ok() && 0 < |s.frames| && |s.frames[0]| == 2 * s.P()
    ensures s.Valid(0, 0) && Runs(s, Init(), steps) && Faultless(steps)
    ensures Holding(s, After(s, Init(), steps), [0, 0], SQ.Queue([0], 1, 0))
  {
    hide PacketCount, Session.PacketAt, Replay, Runs, After, Delivered, Holding, Offsets, Session.Valid, Complete;
    OneOfTwoChunks(s);
    var a := HoldFirst(s);
    var b := HoldAgain(s, After(s, Init(), a), [0], SQ.Queue([], 0, 0));
    assert [0] + [0] == [0, 0] && [] + [0] == [0];
    RunsJoin(s, Init(), a, b);
    steps := a + b;
  }

  /**
    A wrong picture without any loss or duplication by the network: the host
    sends the first chunk of a frame of two, the acker resends it before the
    acknowledgement is handled, and the client takes the frame for complete.
   */
  lemma ResendSpoilsAFrame(s: Session, x: nat) returns (steps: seq<Step>)
    requires s.Ok() && 0 < |s.frames| && |s.frames[0]| == 2 * s.P()
    requires s.P() <= x < 2 * s.P() && s.frames[0][x] != 0
    ensures Runs(s, Init(), steps) && Faultless(steps)
    ensures var c := After(s, Init(), steps).c;
            && |c.decoded| == 1 && c.decoded[0].frame == 0 && c.decoded[0].offsets == [0, 0]
            && c.decoded[0].bytes != s.frames[0]
  {
    hide PacketCount, Session.PacketAt, Replay, Runs, After, Delivered, Holding, Offsets, Session.Valid, Complete;
    OneOfTwoChunks(s);
    var ab := HoldTwice(s);
    var d := DecodeHolding(s, After(s, Init(), ab), [0, 0]);
    RunsJoin(s, Init(), ab, d);
    steps := ab + d;
  }

  // ----- A frame queued twice -----

  /** A frame that is one small packet. */
  predicate SmallFrame(s: Session) {
    s.Ok() && 0 < |s.frames| && |s.frames[0]| == 4 <= s.P()
  }

  function Zeroes(n: nat): (offs: seq<nat>)
    ensures |offs| == n && forall i :: 0 <= i < n ==> offs[i] == 0
  {
    seq(n, _ => 0)
  }

  /** Its one packet passes the test at the first delivery and next at delivery 2^30 + 1. */
  lemma SmallFrameCompletes(s: Session, n: nat)
    requires SmallFrame(s) && 0 < n <= 0x4000_0001
    ensures s.Valid(0, 0) && Offsets(s, 0, Zeroes(n))
    ensures Complete(Replay(s, 0, Zeroes(n))) <==> n == 1 || n == 0x4000_0001
  {
    CountIsExact(4, s.P());
    hide PacketCount, MakePacket;
    assert s.Valid(0, 0);
    BytesOfOneChunk(s, 0, Zeroes(n));
    ReplayTotals(s, 0, Zeroes(n));
    assert s.Valid(0, Zeroes(n)[0]);
    hide Bytes, Replay;
  }

  /** The packet resent and taken until it has come n times, before the decoder runs. */
  lemma {:induction false} HoldTimes(s: Session, n: nat) returns (steps: seq<Step>)
    requires SmallFrame(s) && 0 < n <= 0x4000_0001
    ensures s.Valid(0, 0) && Offsets(s, 0, Zeroes(n)) && Runs(s, Init(), steps) && Faultless(steps)
    ensures Holding(s, After(s, Init(), steps), Zeroes(n), if n <= 0x4000_0000 then SQ.Queue([0], 1, 0) else SQ.Queue([0, 0], 2, 0))
  {
    SmallFrameCompletes(s, n);
    hide PacketCount, MakePacket, Complete, Replay, Runs, After, Delivered, Holding, Offsets;
    if n == 1 {
      assert Zeroes(1) == [0];
      steps := HoldFirst(s);
    } else {
      var before := HoldTimes(s, n - 1);
      var st := After(s, Init(), before);
      var again := HoldAgain(s, st, Zeroes(n - 1), SQ.Queue([0], 1, 0));
      assert Zeroes(n - 1) + [0] == Zeroes(n);
      assert [0] + [0] == [0, 0];
      RunsJoin(s, Init(), before, again);
      steps := before + again;
    }
  }

  /**
    Without a bound on the repetitions a number can be pending twice: a packet
    of four bytes resent 2^30 times before its frame is decoded wraps the byte
    total and completes the buffer again.
   */
  lemma WrapQueuesAFrameTwice(s: Session) returns (steps: seq<Step>)
    requires SmallFrame(s)
    ensures Runs(s, Init(), steps) && Faultless(steps)
    ensures VideoClient.Pending(After(s, Init(), steps).c) == [0, 0]
    ensures !PendingOnce(s, Init(), steps, 0)
  {
    steps := HoldTimes(s, 0x4000_0001);
    hide PacketCount, MakePacket, Replay, Runs, After, Offsets;
    assert [] + [0, 0] + [] == [0, 0];
    var c := After(s, Init(), steps).c;
    assert c.consumer.Polling?;
    assert multiset([0, 0])[0] == 2;
    if PendingOnce(s, Init(), steps, 0) {
      OnceAtTheEnd(s, Init(), steps, 0);
    }
  }

  lemma {:induction false} OnceAtTheEnd(s: Session, st: State, steps: seq<Step>, n: nat)
    requires s.config.Ok() && Runs(s, st, steps) && PendingOnce(s, st, steps, n)
    ensures VideoClient.Occurrences(After(s, st, steps).c, n) <= 1
    decreases steps
  {
    hide Enabled, Apply, VideoClient.Occurrences;
    if steps != [] {
      OnceAtTheEnd(s, Apply(s, st, steps[0]), steps[1..], n);
    }
  }

  // ----- A frame delivered in full and never decoded -----

  /** A frame of a full chunk and a part of one. */
  predicate ChunkAndPart(s: Session) {
    s.Ok() && 0 < |s.frames| && s.P() < |s.frames[0]| < 2 * s.P()
  }

  lemma TwoChunks(s: Session)
    requires ChunkAndPart(s)
    ensures s.Count(0) == 2 && Times(2, s.P()) == 2 * s.P() && s.Valid(0, 0) && s.Valid(0, 1)
  {
    CountIsExact(|s.frames[0]|, s.P());
    hide PacketCount;
    MulNext(0, s.P());
    MulNext(1, s.P());
    MulNext(2, s.P());
    if s.Count(0) > 2 {
      MulMono(3, s.Count(0), s.P());
    } else if s.Count(0) < 2 {
      MulMono(s.Count(0), 1, s.P());
    }
  }

  /** Its deliveries when the first chunk comes twice: it has arrived in full and never completed. */
  lemma TwiceThenRest(s: Session)
    requires ChunkAndPart(s)
    ensures !VideoClient.HasCompleted(s, 0, [0, 0, 1]) && AllArrived(s, 0, [0, 0, 1])
  {
    TwoChunks(s);
    RepetitionHidesAFrame(s, 0);
    assert FirstAgain(3) == [0, 0, 1];
    hide MakePacket, PacketCount, Replay, Complete;
  }

  /** The host with packet 1 of the frame in flight as well. */
  lemma SendSecond(s: Session, st: State) returns (steps: seq<Step>)
    requires ChunkAndPart(s) && s.Valid(0, 0) && s.Valid(0, 1) && CanGoOn(s, st)
    requires st.t == Resending(s, multiset{}, st.t.toHost, st.t.received)
    ensures Runs(s, st, steps) && Faultless(steps) && Delivered(steps) == []
    ensures CanGoOn(s, After(s, st, steps)) && s.PacketAt(0, 1) in After(s, st, steps).t.toClient
  {
    hide MakePacket, PacketCount, VideoClient.Enabled, VideoClient.Apply, Runs, After, Delivered, CanGoOn;
    var send, save := HostSide(Transport.Send), HostSide(Transport.Save);
    assert s.PacketsBefore(0) == 0;
    OneStep(s, st, send);
    var u := Apply(s, st, send);
    GoesOnAfterHost(s, st, Transport.Send);
    OneStep(s, u, save);
    GoesOnAfterHost(s, u, Transport.Save);
    RunsJoin(s, st, [send], [save]);
    steps := [send] + [save];
  }

  /** The client receives packet 0 from a host that resends it. */
  lemma ReceiveFirst(s: Session, st: State) returns (steps: seq<Step>)
    requires s.Ok() && s.Valid(0, 0) && CanGoOn(s, st)
    requires st.t == Resending(s, multiset{s.PacketAt(0, 0)}, st.t.toHost, st.t.received)
    ensures Runs(s, st, steps) && Faultless(steps) && Delivered(steps) == [s.PacketAt(0, 0)]
    ensures var u := After(s, st, steps); CanGoOn(s, u) && u.t == Resending(s, multiset{}, u.t.toHost, u.t.received)
  {
    hide Session.PacketAt, Runs, After, Delivered, CanGoOn;
    steps := CanDeliver(s, st, s.PacketAt(0, 0));
  }

  lemma ReceiveFirstTwice(s: Session) returns (steps: seq<Step>)
    requires s.Ok() && s.Valid(0, 0)
    ensures Runs(s, Init(), steps) && Faultless(steps) && Delivered(steps) == [s.PacketAt(0, 0), s.PacketAt(0, 0)]
    ensures var u := After(s, Init(), steps); CanGoOn(s, u) && u.t == Resending(s, multiset{}, u.t.toHost, u.t.received)
  {
    hide Session.PacketAt, Runs, After, Delivered, CanGoOn;
    var send := [HostSide(Transport.Send), HostSide(Transport.Save)];
    SendFirst(s);
    SentGoesOn(s);
    var a := ReceiveFirst(s, After(s, Init(), send));
    RunsJoin(s, Init(), send, a);
    var st := After(s, Init(), send + a);
    PassOne(s, st);
    var pass := HostSide(Transport.AckPass([0]));
    OneStepIs(s, st, pass);
    GoesOnAfterHost(s, st, Transport.AckPass([0]));
    var b := ReceiveFirst(s, After(s, st, [pass]));
    RunsJoin(s, st, [pass], b);
    RunsJoin(s, Init(), send + a, [pass] + b);
    steps := (send + a) + ([pass] + b);
    HostDeliversNothing(send);
    HostDeliversNothing([pass]);
  }

  lemma OneStepIs(s: Session, st: State, step: Step)
    requires s.config.Ok() && Runs(s, st, [step])
    ensures Enabled(s, st, step) && After(s, st, [step]) == Apply(s, st, step)
  {
    hide Enabled, Apply;
    assert [step][1..] == [];
  }

  lemma {:induction false} HostDeliversNothing(steps: seq<Step>)
    requires forall j :: 0 <= j < |steps| ==> steps[j].HostSide?
    ensures Delivered(steps) == []
  {
    if steps != [] {
      HostDeliversNothing(steps[1..]);
    }
  }

  lemma SentGoesOn(s: Session)
    requires s.Ok() && s.Valid(0, 0)
    ensures var send := [HostSide(Transport.Send), HostSide(Transport.Save)];
            Runs(s, Init(), send) && CanGoOn(s, After(s, Init(), send))
  {
    hide CanGoOn, Enabled, Apply;
    SendFirst(s);
    StartsGoingOn(s);
    var (send, save) := (HostSide(Transport.Send), HostSide(Transport.Save));
    assert [send, save][1..] == [save] && [save][1..] == [];
    GoesOnAfterHost(s, Init(), Transport.Send);
    GoesOnAfterHost(s, Apply(s, Init(), send), Transport.Save);
  }

  /** The first packet delivered twice and the second once. */
  lemma ReceiveAll(s: Session) returns (steps: seq<Step>)
    requires ChunkAndPart(s) && s.Valid(0, 0) && s.Valid(0, 1)
    ensures Runs(s, Init(), steps) && Faultless(steps) && CanGoOn(s, After(s, Init(), steps))
    ensures Delivered(steps) == [s.PacketAt(0, 0), s.PacketAt(0, 0), s.PacketAt(0, 1)]
  {
    hide Session.PacketAt, Session.Valid, Runs, After, Delivered, CanGoOn, Resending, Transport.Apply;
    var a := ReceiveFirstTwice(s);
    var st := After(s, Init(), a);
    var b := SendSecond(s, st);
    var d := CanDeliver(s, After(s, st, b), s.PacketAt(0, 1));
    RunsJoin(s, st, b, d);
    RunsJoin(s, Init(), a, b + d);
    steps := a + (b + d);
  }

  /**
    A frame lost without any fault of the network: the acker resends the first
    packet before its acknowledgement is handled, all packets are delivered, and
    the client, with everything worked off, has not decoded the frame.
   */
  lemma ResendLosesAFrame(s: Session) returns (steps: seq<Step>)
    requires ChunkAndPart(s)
    ensures Runs(s, Init(), steps) && Faultless(steps)
    ensures AllDelivered(s, steps, 0) && VideoClient.Quiescent(After(s, Init(), steps).c)
    ensures !ExactlyOnce.DecodedIn(After(s, Init(), steps).c, 0)
  {
    hide MakePacket, PacketCount, Session.PacketAt, Runs, After, Delivered, CanGoOn, VideoClient.Quiescent, ExactlyOnce.DecodedIn, ExactlyOnce.OffsetsIn;
    TwoChunks(s);
    var a := ReceiveAll(s);
    var b := CanRest(s, After(s, Init(), a));
    RunsJoin(s, Init(), a, b);
    steps := a + b;
    assert Delivered(a) + [] == Delivered(a);
    TheseOffsets(s);
    TwiceThenRest(s);
    hide VideoClient.HasCompleted;
    QuiescentClientHasDecodedExactly(s, steps, 0);
    assert Delivered(steps)[0] == s.PacketAt(0, 0) && Delivered(steps)[2] == s.PacketAt(0, 1);
  }

  lemma TheseOffsets(s: Session)
    requires s.Ok() && s.Valid(0, 0) && s.Valid(0, 1)
    ensures var (p, q) := (s.PacketAt(0, 0), s.PacketAt(0, 1)); ExactlyOnce.OffsetsIn([p, p, q], 0) == [0, 0, 1]
  {
    GenuineShape(s, 0, 0);
    GenuineShape(s, 0, 1);
    hide MakePacket, PacketCount, Session.PacketAt, ChunkSize;
    var (p, q) := (s.PacketAt(0, 0), s.PacketAt(0, 1));
    ExactlyOnce.OffsetsInNext([], p, 0);
    ExactlyOnce.OffsetsInNext([p], p, 0);
    ExactlyOnce.OffsetsInNext([p, p], q, 0);
    assert [] + [p] == [p] && [p] + [p] == [p, p] && [p, p] + [q] == [p, p, q];
  }
}

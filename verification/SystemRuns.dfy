/**
  Particular runs of the whole system, put together from phases: the host
  sends a packet, the client takes one datagram from the socket to its buffer,
  the acker resends, the decoder takes a frame.
 */
module SystemRuns {
  import opened Packets
  import opened Sequencing
  import opened Reassembly
  import opened HostPacketManager
  import SQ = SemaphoreQueue
  import Transport
  import opened VideoClient
  import Streaming

  lemma {:induction false} ThreadsJoin(c: Config, st: State, a: seq<Step>, b: seq<Step>)
    requires ThreadsRun(c, st, a) && ThreadsRun(c, ThreadsAfter(c, st, a), b)
    ensures ThreadsRun(c, st, a + b) && ThreadsAfter(c, st, a + b) == ThreadsAfter(c, ThreadsAfter(c, st, a), b)
    decreases a
  {
    hide Enabled, Apply;
    if a == [] {
      assert a + b == b;
    } else {
      ThreadsJoin(c, Apply(c, st, a[0]), a[1..], b);
      assert (a + b)[1..] == a[1..] + b;
    }
  }

  lemma OneThreadStep(c: Config, st: State, step: Step)
    requires ThreadStep(step) && Enabled(c, st, step)
    ensures ThreadsRun(c, st, [step]) && ThreadsAfter(c, st, [step]) == Apply(c, st, step)
  {
    hide Enabled, Apply;
    StepFirst(c, st, step, []);
    assert [step] + [] == [step];
  }

  /** Four steps in a row. */
  lemma FourThreadSteps(c: Config, st: State, a: Step, b: Step, d: Step, e: Step)
    requires ThreadStep(a) && ThreadStep(b) && ThreadStep(d) && ThreadStep(e)
    requires Enabled(c, st, a) && Enabled(c, Apply(c, st, a), b) && Enabled(c, Apply(c, Apply(c, st, a), b), d)
    requires Enabled(c, Apply(c, Apply(c, Apply(c, st, a), b), d), e)
    ensures ThreadsRun(c, st, [a, b, d, e])
    ensures ThreadsAfter(c, st, [a, b, d, e]) == Apply(c, Apply(c, Apply(c, Apply(c, st, a), b), d), e)
  {
    hide Enabled, Apply;
    var st1 := Apply(c, st, a);
    var st2 := Apply(c, st1, b);
    var st3 := Apply(c, st2, d);
    OneThreadStep(c, st3, e);
    StepFirst(c, st2, d, [e]);
    StepFirst(c, st1, b, [d] + [e]);
    StepFirst(c, st, a, [b] + ([d] + [e]));
    assert [a] + ([b] + ([d] + [e])) == [a, b, d, e];
  }

  // ----- One datagram from the socket to its buffer -----

  /** Receiver and consumer have nothing to do. */
  predicate Idle(st: State) {
    st.owner == Free && st.receiver.Listening? && st.consumer.Polling? && st.packets == SQ.Queue([], 0, 0)
  }

  lemma PushPhase(c: Config, st: State)
    requires st.owner == Free && st.receiver.Acked? && st.consumer.Polling? && st.packets == SQ.Queue([], 0, 0)
    ensures var steps := [LockForPush, EnqueuePacket, ReleasePacket, UnlockAfterPush];
            && ThreadsRun(c, st, steps)
            && ThreadsAfter(c, st, steps) == st.(receiver := Listening, packets := SQ.Queue([st.receiver.got], 1, 0))
  {
    hide Acceptable, Lookup;
    FourThreadSteps(c, st, LockForPush, EnqueuePacket, ReleasePacket, UnlockAfterPush);
    assert [] + [st.receiver.got] == [st.receiver.got];
  }

  lemma PopPhase(c: Config, st: State, pkt: Packet)
    requires st.owner == Free && st.receiver.Listening? && st.consumer.Polling? && st.packets == SQ.Queue([pkt], 1, 0)
    ensures var steps := [SeePacket, LockForPop, AdmitPacket, DequeuePacket];
            && ThreadsRun(c, st, steps)
            && ThreadsAfter(c, st, steps) == st.(owner := ByConsumer, consumer := HasPacket(pkt), packets := SQ.Queue([], 0, 0))
  {
    hide Acceptable, Lookup;
    FourThreadSteps(c, st, SeePacket, LockForPop, AdmitPacket, DequeuePacket);
  }

  /** What the client is left with. */
  function Fed(c: Config, st: State, pkt: Packet): State
    requires Acceptable(c, Lookup(st.active, pkt.frameNumber).buffer, pkt)
  {
    var life := Lookup(st.active, pkt.frameNumber);
    var b := Absorb(c, life.buffer, pkt);
    st.(owner := Free,
        receiver := Listening,
        consumer := Polling,
        packets := SQ.Queue([], 0, 0),
        active := st.active[pkt.frameNumber := Life(b, life.offsets + [pkt.offset])],
        frames := if Complete(b) then st.frames.Enqueue(pkt.frameNumber).Release(SQ.MAXINT) else st.frames,
        absorbed := st.absorbed + [pkt])
  }

  lemma AbsorbPhase(c: Config, st: State) returns (steps: seq<Step>)
    requires st.owner == ByConsumer && st.receiver.Listening? && st.consumer.HasPacket? && st.packets == SQ.Queue([], 0, 0)
    requires st.consumer.pkt.kind == PACKET_TYPE_STREAM
    requires Acceptable(c, Lookup(st.active, st.consumer.pkt.frameNumber).buffer, st.consumer.pkt)
    ensures ThreadsRun(c, st, steps) && ThreadsAfter(c, st, steps) == Fed(c, st, st.consumer.pkt)
  {
    hide Acceptable, Absorb, Complete, Lookup;
    if Complete(Absorb(c, Lookup(st.active, st.consumer.pkt.frameNumber).buffer, st.consumer.pkt)) {
      steps := [AbsorbPacket, EnqueueFrame, ReleaseFrame, UnlockAfterPop];
      FourThreadSteps(c, st, AbsorbPacket, EnqueueFrame, ReleaseFrame, UnlockAfterPop);
    } else {
      steps := [AbsorbPacket] + [UnlockAfterPop];
      OneThreadStep(c, Apply(c, st, AbsorbPacket), UnlockAfterPop);
      StepFirst(c, st, AbsorbPacket, [UnlockAfterPop]);
    }
  }

  /** The client takes the packet it has acknowledged to its buffer. */
  lemma Feed(c: Config, st: State) returns (steps: seq<Step>)
    requires st.owner == Free && st.receiver.Acked? && st.consumer.Polling? && st.packets == SQ.Queue([], 0, 0)
    requires st.receiver.got.kind == PACKET_TYPE_STREAM
    requires Acceptable(c, Lookup(st.active, st.receiver.got.frameNumber).buffer, st.receiver.got)
    ensures ThreadsRun(c, st, steps) && ThreadsAfter(c, st, steps) == Fed(c, st, st.receiver.got)
  {
    hide Acceptable, Absorb, Complete, Lookup, ThreadsRun, ThreadsAfter, Enabled, Apply;
    var pkt := st.receiver.got;
    PushPhase(c, st);
    var st1 := st.(receiver := Listening, packets := SQ.Queue([pkt], 1, 0));
    PopPhase(c, st1, pkt);
    var st2 := st1.(owner := ByConsumer, consumer := HasPacket(pkt), packets := SQ.Queue([], 0, 0));
    var last := AbsorbPhase(c, st2);
    var pop := [SeePacket, LockForPop, AdmitPacket, DequeuePacket];
    ThreadsJoin(c, st1, pop, last);
    ThreadsJoin(c, st, [LockForPush, EnqueuePacket, ReleasePacket, UnlockAfterPush], pop + last);
    steps := [LockForPush, EnqueuePacket, ReleasePacket, UnlockAfterPush] + (pop + last);
  }

  /** The decoder takes the one frame queued. */
  lemma DecodePhase(c: Config, st: State, n: nat)
    requires st.decoder.DecoderPolling? && st.frames == SQ.Queue([n], 1, 0) && n in st.active
    ensures var steps := [SeeFrame, AdmitFrame, DequeueFrame, DecodeFrame(true)];
            && ThreadsRun(c, st, steps)
            && ThreadsAfter(c, st, steps).decoded == st.decoded + [Decode(n, st.active[n].buffer.chunks, st.active[n].offsets, true)]
  {
    hide Acceptable;
    FourThreadSteps(c, st, SeeFrame, AdmitFrame, DequeueFrame, DecodeFrame(true));
  }

  // ----- The same in the whole system -----

  /** No step of the run loses or duplicates anything. */
  predicate Faultless(steps: seq<Streaming.Step>) {
    forall step :: step in steps && step.HostSide? ==>
      !step.h.LosePacket? && !step.h.DuplicatePacket? && !step.h.LoseAck? && !step.h.DuplicateAck?
  }

  lemma {:induction false} LiftIsFaultless(vs: seq<Step>)
    ensures Faultless(Streaming.Lift(vs))
  {
    if vs != [] {
      LiftIsFaultless(vs[1..]);
    }
  }

  lemma OneStep(s: Session, st: Streaming.State, step: Streaming.Step)
    requires s.config.Ok() && Streaming.Enabled(s, st, step)
    ensures Streaming.Runs(s, st, [step]) && Streaming.After(s, st, [step]) == Streaming.Apply(s, st, step)
    ensures Streaming.Delivered([step]) == if step.Deliver? then [step.pkt] else []
  {
    hide Streaming.Enabled, Streaming.Apply;
    assert [step][1..] == [];
    assert Streaming.Runs(s, Streaming.Apply(s, st, step), []);
  }

  /** A datagram in flight is delivered to an idle client and taken to its buffer. */
  lemma DeliverAndFeed(s: Session, st: Streaming.State, pkt: Packet) returns (steps: seq<Streaming.Step>)
    requires s.Ok() && Idle(st.c) && pkt in st.t.toClient && pkt.kind == PACKET_TYPE_STREAM
    requires Acceptable(s.config, Lookup(st.c.active, pkt.frameNumber).buffer, pkt)
    ensures Streaming.Runs(s, st, steps) && Faultless(steps)
    ensures Streaming.After(s, st, steps)
         == Streaming.State(Transport.Apply(s, st.t, Transport.Receive(pkt)), Fed(s.config, st.c.(read := st.c.read + [pkt]), pkt))
  {
    hide Acceptable, Absorb, Complete, Lookup, ThreadsRun, ThreadsAfter, Streaming.Runs, Streaming.After, Streaming.Delivered;
    OneStep(s, st, Streaming.Deliver(pkt));
    var u := Streaming.Apply(s, st, Streaming.Deliver(pkt));
    var vs := Feed(s.config, u.c);
    Streaming.LiftRuns(s, u, vs);
    LiftIsFaultless(vs);
    Streaming.RunsJoin(s, st, [Streaming.Deliver(pkt)], Streaming.Lift(vs));
    steps := [Streaming.Deliver(pkt)] + Streaming.Lift(vs);
  }

  /** The host sends packet 0 of frame 0 and saves it. */
  lemma SendFirst(s: Session)
    requires s.Ok() && s.Valid(0, 0)
    ensures var steps := [Streaming.HostSide(Transport.Send), Streaming.HostSide(Transport.Save)];
            && Streaming.Runs(s, Streaming.Init(), steps) && Faultless(steps)
            && Streaming.After(s, Streaming.Init(), steps) == Streaming.State(Resending(s, multiset{s.PacketAt(0, 0)}, multiset{}, {}), Init())
  {
    hide MakePacket, PacketCount, VideoClient.Enabled, VideoClient.Apply;
    assert s.PacketsBefore(0) == 0;
    var st := Streaming.Init();
    var send, save := Streaming.HostSide(Transport.Send), Streaming.HostSide(Transport.Save);
    NumberOfPacket(s, 0, 0);
    PacketOfNumber(s, 0);
    OneStep(s, st, send);
    var u := Streaming.Apply(s, st, send);
    OneStep(s, u, save);
    Streaming.RunsJoin(s, st, [send], [save]);
    assert [send] + [save] == [send, save];
  }

  /** The host after its first packet, with what is in flight and what was received. */
  function Resending(s: Session, toClient: multiset<Packet>, toHost: multiset<nat>, received: set<nat>): Transport.State
    requires s.config.Ok() && s.Valid(0, 0)
  {
    Transport.State(Transport.AtPacket(0, 1), 1, map[0 := s.PacketAt(0, 0)], toClient, toHost, received, {})
  }

  lemma FirstPacket(s: Session)
    requires s.Ok() && s.Valid(0, 0)
    ensures var pkt := s.PacketAt(0, 0);
            s.Genuine(pkt) && pkt.frameNumber == 0 && pkt.offset == 0 && pkt.sequenceNumber == 0 && pkt.kind == PACKET_TYPE_STREAM
  {
    hide MakePacket, PacketCount, ChunkSize;
    assert s.PacketsBefore(0) == 0;
    GenuineShape(s, 0, 0);
    NumberOfPacket(s, 0, 0);
    PacketOfNumber(s, 0);
  }

  /** A pass puts the packet in flight again. */
  lemma PassOne(s: Session, st: Streaming.State)
    requires s.Ok() && s.Valid(0, 0) && st.t == Resending(s, multiset{}, st.t.toHost, st.t.received)
    ensures var pass := Streaming.HostSide(Transport.AckPass([0]));
            && Streaming.Runs(s, st, [pass]) && Faultless([pass])
            && Streaming.After(s, st, [pass]) == st.(t := Resending(s, multiset{s.PacketAt(0, 0)}, st.t.toHost, st.t.received))
  {
    hide MakePacket, PacketCount, Session.PacketAt, Streaming.Runs, Streaming.After, Streaming.Delivered;
    assert InOrder(st.t.recent, [0]) == [s.PacketAt(0, 0)];
    OneStep(s, st, Streaming.HostSide(Transport.AckPass([0])));
  }

  /** What the client makes of packet 0 received from a host that resends. */
  ghost predicate TookAgain(s: Session, c: State, u: Streaming.State)
    requires s.Ok() && s.Valid(0, 0)
  {
    var pkt := s.PacketAt(0, 0);
    && u.t == Resending(s, multiset{}, u.t.toHost, u.t.received)
    && pkt.frameNumber == 0 && Acceptable(s.config, Lookup(c.active, 0).buffer, pkt)
    && u.c == Fed(s.config, c.(read := c.read + [pkt]), pkt)
    && LifeOk(s, 0, u.c.active[0]) && u.c.active[0].offsets == Lookup(c.active, 0).offsets + [0]
  }

  lemma TakeFromNetwork(s: Session, st: Streaming.State) returns (steps: seq<Streaming.Step>)
    requires s.Ok() && s.Valid(0, 0) && Idle(st.c)
    requires 0 in st.c.active ==> ReplayOk(s, 0, st.c.active[0])
    requires st.t == Resending(s, multiset{s.PacketAt(0, 0)}, st.t.toHost, st.t.received)
    ensures Streaming.Runs(s, st, steps) && Faultless(steps) && TookAgain(s, st.c, Streaming.After(s, st, steps))
  {
    hide MakePacket, PacketCount, Acceptable, Absorb, Complete, ReplayOk, LifeOk, Session.PacketAt, Session.Genuine;
    hide Streaming.Runs, Streaming.After, Faultless;
    FirstPacket(s);
    AbsorbExtendsLife(s, st.c, s.PacketAt(0, 0));
    steps := DeliverAndFeed(s, st, s.PacketAt(0, 0));
  }

  /** The acker resends packet 0 and the client takes it. */
  lemma TakeResent(s: Session, st: Streaming.State) returns (steps: seq<Streaming.Step>)
    requires s.Ok() && s.Valid(0, 0) && Idle(st.c)
    requires 0 in st.c.active ==> ReplayOk(s, 0, st.c.active[0])
    requires st.t == Resending(s, multiset{}, st.t.toHost, st.t.received)
    ensures Streaming.Runs(s, st, steps) && Faultless(steps) && TookAgain(s, st.c, Streaming.After(s, st, steps))
  {
    hide ReplayOk, TookAgain, Session.PacketAt, Streaming.Runs, Streaming.After, Streaming.Delivered;
    PassOne(s, st);
    var pass := Streaming.HostSide(Transport.AckPass([0]));
    var rest := TakeFromNetwork(s, Streaming.After(s, st, [pass]));
    Streaming.RunsJoin(s, st, [pass], rest);
    steps := [pass] + rest;
  }
}

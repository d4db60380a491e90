/**
  Host, network and client together. The two machines share the client's read
  of a datagram; every other step belongs to one of them. Everything here is
  said of every run: any order of the threads' steps, and any loss,
  duplication and reordering of datagrams.
 */
module Streaming {
  import opened Words
  import opened Arithmetic
  import opened Packets
  import opened Sequencing
  import opened Reassembly
  import Transport
  import VideoClient
  import Screen
  import SQ = SemaphoreQueue
  import ExactlyOnce
  import Display

  datatype State = State(t: Transport.State, c: VideoClient.State)

  datatype Step = HostSide(h: Transport.Step) | ClientSide(v: VideoClient.Step) | Deliver(pkt: Packet)

  function Init(): State {
    State(Transport.Init(), VideoClient.Init())
  }

  ghost predicate Enabled(s: Session, st: State, step: Step)
    requires s.config.Ok()
  {
    match step
    case HostSide(h) => !h.Receive? && Transport.Enabled(s, st.t, h)
    case ClientSide(v) => !v.Receive? && VideoClient.Enabled(s.config, st.c, v)
    case Deliver(pkt) =>
      Transport.Enabled(s, st.t, Transport.Receive(pkt)) && VideoClient.Enabled(s.config, st.c, VideoClient.Receive(pkt))
  }

  function Apply(s: Session, st: State, step: Step): State
    requires s.config.Ok() && Enabled(s, st, step)
  {
    match step
    case HostSide(h) => st.(t := Transport.Apply(s, st.t, h))
    case ClientSide(v) => st.(c := VideoClient.Apply(s.config, st.c, v))
    case Deliver(pkt) =>
      State(Transport.Apply(s, st.t, Transport.Receive(pkt)), VideoClient.Apply(s.config, st.c, VideoClient.Receive(pkt)))
  }

  ghost predicate Runs(s: Session, st: State, steps: seq<Step>)
    requires s.config.Ok()
    decreases steps
  {
    steps == [] || (Enabled(s, st, steps[0]) && Runs(s, Apply(s, st, steps[0]), steps[1..]))
  }

  ghost function After(s: Session, st: State, steps: seq<Step>): State
    requires s.config.Ok() && Runs(s, st, steps)
    decreases steps
  {
    if steps == [] then st else After(s, Apply(s, st, steps[0]), steps[1..])
  }

  /** The datagrams the run delivers to the client, in order. */
  function Delivered(steps: seq<Step>): seq<Packet> {
    if steps == [] then []
    else (if steps[0].Deliver? then [steps[0].pkt] else []) + Delivered(steps[1..])
  }

  lemma NothingDelivered()
    ensures Delivered([]) == []
  {
  }

  lemma DeliveredFirst(steps: seq<Step>)
    requires steps != []
    ensures Delivered(steps) == Delivered([steps[0]]) + Delivered(steps[1..])
  {
    assert [steps[0]][1..] == [];
  }

  /** The packets of frame n that the run delivers, by their offsets, in order. */
  function DeliveredOf(steps: seq<Step>, n: nat): seq<nat> {
    ExactlyOnce.OffsetsIn(Delivered(steps), n)
  }

  /** Host, network and client move freely: only a delivery needs both, a datagram in flight and a client that listens. */
  lemma PartsMoveFreely(s: Session, st: State, h: Transport.Step, v: VideoClient.Step, pkt: Packet)
    requires s.config.Ok()
    ensures !h.Receive? && Transport.Enabled(s, st.t, h) ==> Enabled(s, st, HostSide(h)) && Apply(s, st, HostSide(h)).c == st.c
    ensures !v.Receive? && VideoClient.Enabled(s.config, st.c, v) ==> Enabled(s, st, ClientSide(v)) && Apply(s, st, ClientSide(v)).t == st.t
    ensures Enabled(s, st, Deliver(pkt)) <==> pkt in st.t.toClient && st.c.receiver.Listening?
    ensures Enabled(s, st, Deliver(pkt)) ==>
              var u := Apply(s, st, Deliver(pkt));
              && u.t.toClient == st.t.toClient[pkt := st.t.toClient[pkt] - 1] && pkt.sequenceNumber in u.t.toHost
              && u.c == st.c.(receiver := VideoClient.Acked(pkt), read := st.c.read + [pkt])
  {
    hide Acceptable;
  }

  // ----- What every run keeps, even one in which a byte total wraps -----

  ghost predicate FlowOk(s: Session, st: State) {
    Transport.Inv(s, st.t) && VideoClient.FlowOk(s, st.c) && ExactlyOnce.Traced(s, st.c)
  }

  lemma FlowIsOk(s: Session, st: State)
    requires FlowOk(s, st)
    ensures s.Ok() && VideoClient.FlowOk(s, st.c) && ExactlyOnce.Traced(s, st.c)
  {
  }

  lemma ReadsOnlyDeliveries(s: Session, c: VideoClient.State, v: VideoClient.Step)
    requires s.config.Ok() && VideoClient.Enabled(s.config, c, v) && !v.Receive?
    ensures VideoClient.Apply(s.config, c, v).read == c.read
  {
  }

  /** What is read is what is delivered. */
  lemma StepReads(s: Session, st: State, step: Step)
    requires s.config.Ok() && Enabled(s, st, step)
    ensures Apply(s, st, step).c.read == st.c.read + Delivered([step])
  {
    hide Transport.Apply, Transport.Enabled;
    assert [step][1..] == [];
    match step
    case HostSide(h) =>
    case ClientSide(v) => ReadsOnlyDeliveries(s, st.c, v);
    case Deliver(pkt) =>
  }

  lemma {:induction false} RunReads(s: Session, st: State, steps: seq<Step>)
    requires s.config.Ok() && Runs(s, st, steps)
    ensures After(s, st, steps).c.read == st.c.read + Delivered(steps)
    decreases steps
  {
    hide Enabled, Apply, Delivered;
    if steps == [] {
      NothingDelivered();
      assert st.c.read + [] == st.c.read;
    } else {
      var u := Apply(s, st, steps[0]);
      StepReads(s, st, steps[0]);
      RunReads(s, u, steps[1..]);
      DeliveredFirst(steps);
      assert st.c.read + (Delivered([steps[0]]) + Delivered(steps[1..])) == u.c.read + Delivered(steps[1..]);
    }
  }

  lemma StepKeepsFlow(s: Session, st: State, step: Step)
    requires FlowOk(s, st) && Enabled(s, st, step)
    ensures FlowOk(s, Apply(s, st, step))
  {
    hide Transport.Apply, Transport.SenderOk, Transport.RecentOk, VideoClient.Apply, VideoClient.FlowOk, ExactlyOnce.Traced;
    assert s.Ok() by {
      VideoClient.FlowIsOk(s, st.c);
    }
    match step
    case HostSide(h) => Transport.StepKeepsInv(s, st.t, h);
    case ClientSide(v) =>
      VideoClient.StepKeepsFlow(s, st.c, v);
      ExactlyOnce.StepKeepsTraced(s, st.c, v);
    case Deliver(pkt) =>
      Transport.StepKeepsInv(s, st.t, Transport.Receive(pkt));
      VideoClient.StepKeepsFlow(s, st.c, VideoClient.Receive(pkt));
      ExactlyOnce.StepKeepsTraced(s, st.c, VideoClient.Receive(pkt));
  }

  lemma {:induction false} RunKeepsFlow(s: Session, st: State, steps: seq<Step>)
    requires s.Ok() && FlowOk(s, st) && Runs(s, st, steps)
    ensures FlowOk(s, After(s, st, steps))
    decreases steps
  {
    hide Enabled, Apply, FlowOk;
    if steps != [] {
      StepKeepsFlow(s, st, steps[0]);
      RunKeepsFlow(s, Apply(s, st, steps[0]), steps[1..]);
    }
  }

  lemma InitFlows(s: Session)
    requires s.Ok()
    ensures FlowOk(s, Init())
  {
    Transport.InitKeepsInv(s);
    VideoClient.InitKeepsFlow(s);
    ExactlyOnce.InitTraced(s);
  }

  lemma NothingRead(steps: seq<Step>)
    ensures Init().c.read + Delivered(steps) == Delivered(steps)
  {
  }

  lemma ReachableFlows(s: Session, steps: seq<Step>)
    requires s.Ok() && Runs(s, Init(), steps)
    ensures FlowOk(s, After(s, Init(), steps)) && VideoClient.FlowOk(s, After(s, Init(), steps).c)
    ensures After(s, Init(), steps).c.read == Delivered(steps)
  {
    hide Runs, After, FlowOk, Delivered, Init, VideoClient.FlowOk, ExactlyOnce.Traced;
    InitFlows(s);
    NothingRead(steps);
    RunKeepsFlow(s, Init(), steps);
    FlowIsOk(s, After(s, Init(), steps));
    RunReads(s, Init(), steps);
  }

  // ----- Runs in which the buffers of one frame complete once -----

  /** At no point of the run has the active buffer of frame n passed the completion test twice. */
  ghost predicate NeverCompletesTwice(s: Session, st: State, steps: seq<Step>, n: nat)
    requires s.Ok() && Runs(s, st, steps)
    decreases steps
  {
    VideoClient.NoSecondCompletion(s, st.c, n) && (steps != [] ==> NeverCompletesTwice(s, Apply(s, st, steps[0]), steps[1..], n))
  }

  /** At every point of the run frame n is pending once at most. */
  ghost predicate PendingOnce(s: Session, st: State, steps: seq<Step>, n: nat)
    requires s.config.Ok() && Runs(s, st, steps)
    decreases steps
  {
    VideoClient.Occurrences(st.c, n) <= 1 && (steps != [] ==> PendingOnce(s, Apply(s, st, steps[0]), steps[1..], n))
  }

  ghost predicate Inv(s: Session, st: State, n: nat) {
    FlowOk(s, st) && VideoClient.FrameOk(s, st.c, n)
  }

  lemma StepKeepsInv(s: Session, st: State, step: Step, n: nat)
    requires Inv(s, st, n) && Enabled(s, st, step) && VideoClient.NoSecondCompletion(s, Apply(s, st, step).c, n)
    ensures Inv(s, Apply(s, st, step), n)
  {
    StepKeepsFlow(s, st, step);
    hide Transport.Apply, Transport.Inv, VideoClient.Apply, VideoClient.NoSecondCompletion, VideoClient.FlowOk, VideoClient.FrameOk;
    hide ExactlyOnce.Traced;
    match step
    case HostSide(h) =>
    case ClientSide(v) => VideoClient.StepKeepsInv(s, st.c, v, n);
    case Deliver(pkt) =>
      DeliveredIsGenuine(s, st, pkt);
      VideoClient.StepKeepsInv(s, st.c, VideoClient.Receive(pkt), n);
  }

  lemma DeliveredIsGenuine(s: Session, st: State, pkt: Packet)
    requires s.config.Ok() && Transport.Inv(s, st.t) && Enabled(s, st, Deliver(pkt))
    ensures s.Genuine(pkt)
  {
  }

  lemma {:induction false} RunKeepsInv(s: Session, st: State, steps: seq<Step>, n: nat)
    requires s.Ok() && Inv(s, st, n) && Runs(s, st, steps) && NeverCompletesTwice(s, st, steps, n)
    ensures Inv(s, After(s, st, steps), n)
    decreases steps
  {
    hide Inv, Enabled, Apply, VideoClient.NoSecondCompletion;
    if steps != [] {
      StepKeepsInv(s, st, steps[0], n);
      RunKeepsInv(s, Apply(s, st, steps[0]), steps[1..], n);
    }
  }

  lemma InitIsSafe(s: Session, n: nat)
    requires s.Ok()
    ensures Inv(s, Init(), n) && VideoClient.NoSecondCompletion(s, Init().c, n)
  {
    InitFlows(s);
    VideoClient.InitKeepsInv(s, n);
  }

  lemma ReachableIsSafe(s: Session, steps: seq<Step>, n: nat)
    requires s.Ok() && Runs(s, Init(), steps) && NeverCompletesTwice(s, Init(), steps, n)
    ensures VideoClient.Inv(s, After(s, Init(), steps).c, n) && ExactlyOnce.Traced(s, After(s, Init(), steps).c)
  {
    InitIsSafe(s, n);
    hide FlowOk, VideoClient.FrameOk, Runs, After, NeverCompletesTwice;
    RunKeepsInv(s, Init(), steps, n);
    FlowIsOk(s, After(s, Init(), steps));
  }

  /**
    Each buffer handed to decodeImage had passed the completion test, in every
    run in which no buffer of its frame passes it twice.
   */
  lemma DecodedFramesHadCompleted(s: Session, steps: seq<Step>, j: nat)
    requires s.Ok() && Runs(s, Init(), steps) && j < |After(s, Init(), steps).c.decoded|
    requires NeverCompletesTwice(s, Init(), steps, After(s, Init(), steps).c.decoded[j].frame)
    ensures var d := After(s, Init(), steps).c.decoded[j];
            Offsets(s, d.frame, d.offsets) && exists k: nat :: VideoClient.CompletedAt(s, d.frame, d.offsets, k)
  {
    ReachableIsSafe(s, steps, After(s, Init(), steps).c.decoded[j].frame);
    hide Runs, After;
    assert VideoClient.DecodeOk(s, After(s, Init(), steps).c.decoded[j]);
  }

  /**
    While no buffer of frame n has completed twice, n is pending once at most, and
    then its completed buffer is in activeFrames, with a byte total that has
    reached its size unless it wrapped.
   */
  lemma PendingFramesAreSafe(s: Session, steps: seq<Step>, n: nat)
    requires s.Ok() && Runs(s, Init(), steps) && NeverCompletesTwice(s, Init(), steps, n)
    ensures var c := After(s, Init(), steps).c;
            n in VideoClient.Pending(c) ==>
              && VideoClient.Occurrences(c, n) == 1
              && n in c.active
              && VideoClient.HasCompleted(s, n, c.active[n].offsets)
              && c.active[n].buffer.expectedSize > 0
              && (Bytes(s, n, c.active[n].offsets) < DWORD_LIMIT ==> c.active[n].buffer.totalSize >= c.active[n].buffer.expectedSize)
  {
    ReachableIsSafe(s, steps, n);
    var c := After(s, Init(), steps).c;
    hide Runs, After, NeverCompletesTwice, VideoClient.HasCompleted, Bytes, VideoClient.Inv;
    if n in VideoClient.Pending(c) {
      VideoClient.PendingFramesAreThere(s, c, n);
    }
  }

  lemma {:induction false} OnceIff(s: Session, st: State, steps: seq<Step>, n: nat)
    requires s.Ok() && Inv(s, st, n) && VideoClient.NoSecondCompletion(s, st.c, n) && Runs(s, st, steps)
    ensures PendingOnce(s, st, steps, n) <==> NeverCompletesTwice(s, st, steps, n)
    decreases steps
  {
    hide Inv, Enabled, Apply, VideoClient.NoSecondCompletion, VideoClient.Occurrences;
    OnceNow(s, st, n);
    if steps != [] {
      var u := Apply(s, st, steps[0]);
      if VideoClient.NoSecondCompletion(s, u.c, n) {
        StepKeepsInv(s, st, steps[0], n);
        OnceIff(s, u, steps[1..], n);
      } else {
        RepeatsNow(s, st, steps[0], n);
      }
    }
  }

  lemma OnceNow(s: Session, st: State, n: nat)
    requires Inv(s, st, n)
    ensures VideoClient.Occurrences(st.c, n) <= 1
  {
    FlowIsOk(s, st);
    hide FlowOk, VideoClient.Occurrences, VideoClient.Completed;
  }

  lemma RepeatsNow(s: Session, st: State, step: Step, n: nat)
    requires s.Ok() && Inv(s, st, n) && VideoClient.NoSecondCompletion(s, st.c, n) && Enabled(s, st, step)
    requires !VideoClient.NoSecondCompletion(s, Apply(s, st, step).c, n)
    ensures VideoClient.Occurrences(Apply(s, st, step).c, n) == 2
  {
    hide Transport.Apply, VideoClient.Apply, VideoClient.NoSecondCompletion, VideoClient.Occurrences, VideoClient.FlowOk, VideoClient.FrameOk, Transport.Inv;
    match step
    case HostSide(h) =>
    case ClientSide(v) => VideoClient.SecondCompletionRepeats(s, st.c, v, n);
    case Deliver(pkt) => VideoClient.SecondCompletionRepeats(s, st.c, VideoClient.Receive(pkt), n);
  }

  /** Over any run frame n stays pending once at most exactly as long as no buffer of it completes twice before its erase. */
  lemma PendingOnceIff(s: Session, steps: seq<Step>, n: nat)
    requires s.Ok() && Runs(s, Init(), steps)
    ensures PendingOnce(s, Init(), steps, n) <==> NeverCompletesTwice(s, Init(), steps, n)
  {
    InitIsSafe(s, n);
    hide Inv, Runs;
    OnceIff(s, Init(), steps, n);
  }

  /** The run delivers few enough packets of frame n for its byte total never to reach 2^32, even if repeated. */
  predicate FewOf(s: Session, pkts: seq<Packet>, n: nat)
    requires s.config.Ok()
  {
    Times(|ExactlyOnce.OffsetsIn(pkts, n)|, s.P()) < DWORD_LIMIT
  }

  /** Two bounds on the deliveries of a frame under which its buffers complete once: few of them, or none twice. */
  ghost predicate Bounded(s: Session, pkts: seq<Packet>, n: nat)
    requires s.config.Ok()
  {
    FewOf(s, pkts, n) || NoDup(ExactlyOnce.OffsetsIn(pkts, n))
  }

  lemma BoundedBefore(s: Session, pkts: seq<Packet>, k: nat, n: nat)
    requires s.config.Ok() && Bounded(s, pkts, n) && k <= |pkts|
    ensures Bounded(s, pkts[..k], n)
  {
    hide ExactlyOnce.OffsetsIn, Times;
    ExactlyOnce.OffsetsInPrefix(pkts, k, n);
    MulMono(|ExactlyOnce.OffsetsIn(pkts[..k], n)|, |ExactlyOnce.OffsetsIn(pkts, n)|, s.P());
  }

  lemma BoundedCompletesOnce(s: Session, st: State, n: nat)
    requires FlowOk(s, st) && s.Ok() && Bounded(s, st.c.read, n)
    ensures VideoClient.NoSecondCompletion(s, st.c, n)
  {
    FlowIsOk(s, st);
    hide FlowOk, ExactlyOnce.Traced, ExactlyOnce.OffsetsIn, VideoClient.NoSecondCompletion;
    if FewOf(s, st.c.read, n) {
      ExactlyOnce.FewReadsCompleteOnce(s, st.c, n);
    } else {
      ExactlyOnce.DistinctReadsCompleteOnce(s, st.c, n);
    }
  }

  lemma {:induction false} BoundedRunCompletesOnce(s: Session, st: State, steps: seq<Step>, n: nat)
    requires s.Ok() && FlowOk(s, st) && Runs(s, st, steps) && Bounded(s, st.c.read + Delivered(steps), n)
    ensures NeverCompletesTwice(s, st, steps, n)
    decreases steps
  {
    hide FlowOk, Enabled, Apply, VideoClient.NoSecondCompletion, Bounded, Delivered;
    var all := st.c.read + Delivered(steps);
    assert all[..|st.c.read|] == st.c.read;
    BoundedBefore(s, all, |st.c.read|, n);
    BoundedCompletesOnce(s, st, n);
    if steps != [] {
      var u := Apply(s, st, steps[0]);
      StepKeepsFlow(s, st, steps[0]);
      StepReads(s, st, steps[0]);
      DeliveredFirst(steps);
      assert u.c.read + Delivered(steps[1..]) == all;
      BoundedRunCompletesOnce(s, u, steps[1..], n);
    }
  }

  /**
    A bound that can be read off the deliveries: a frame of which fewer than
    2^32 / payload packets are delivered, repeated or not, or none twice, never
    completes twice.
   */
  lemma BoundedDeliveriesCompleteOnce(s: Session, steps: seq<Step>, n: nat)
    requires s.Ok() && Runs(s, Init(), steps)
    requires Times(|DeliveredOf(steps, n)|, s.P()) < DWORD_LIMIT || NoDup(DeliveredOf(steps, n))
    ensures NeverCompletesTwice(s, Init(), steps, n)
  {
    hide FlowOk, Runs, ExactlyOnce.OffsetsIn, Times, Init, Delivered, NeverCompletesTwice;
    InitFlows(s);
    NothingRead(steps);
    BoundedRunCompletesOnce(s, Init(), steps, n);
  }

  // ----- Decoded pictures -----

  /**
    Even when a byte total wraps: every decode is of a frame of the host or of
    nothing at all, and each byte of it is the frame's where its chunk arrived
    and zero elsewhere.
   */
  lemma DecodedBytesAreWhatArrived(s: Session, steps: seq<Step>, j: nat, x: nat)
    requires s.Ok() && Runs(s, Init(), steps) && j < |After(s, Init(), steps).c.decoded|
    ensures var d := After(s, Init(), steps).c.decoded[j];
            && (d.offsets == [] ==> d.bytes == [])
            && (d.offsets != [] ==>
                  && d.frame < |s.frames| && |d.bytes| == |s.frames[d.frame]|
                  && (x < |d.bytes| ==> d.bytes[x] == if Quotient(x, s.P()) in d.offsets then s.frames[d.frame][x] else 0))
  {
    ReachableFlows(s, steps);
    var d := After(s, Init(), steps).c.decoded[j];
    hide Runs, After;
    assert VideoClient.DecodeFlowOk(s, d);
    if d.offsets != [] {
      assert s.Valid(d.frame, d.offsets[0]);
      if x < |d.bytes| {
        ReplayContent(s, d.frame, d.offsets, x);
      }
    }
  }

  /**
    End to end, in every run: a buffer handed to decodeImage into which anything
    was delivered is the host's frame exactly if the frame is zero wherever
    nothing arrived; and at a delivery at which its completion test succeeded,
    every chunk had arrived without a wrap if and only if none had come twice,
    in which case it is the host's frame.
   */
  lemma DecodedFramesAreTheHosts(s: Session, steps: seq<Step>, j: nat)
    requires s.Ok() && Runs(s, Init(), steps) && j < |After(s, Init(), steps).c.decoded|
    ensures var d := After(s, Init(), steps).c.decoded[j];
            && Offsets(s, d.frame, d.offsets)
            && (d.offsets != [] ==>
                  d.frame < |s.frames| && (d.bytes == s.frames[d.frame] <==> VideoClient.MissingIsZero(s, d)))
            && (forall k: nat :: VideoClient.CompletedAt(s, d.frame, d.offsets, k) ==>
                  && (NoDup(d.offsets[..k]) <==> AllArrived(s, d.frame, d.offsets[..k]) && Bytes(s, d.frame, d.offsets[..k]) < DWORD_LIMIT)
                  && (AllArrived(s, d.frame, d.offsets[..k]) ==> d.bytes == s.frames[d.frame]))
  {
    ReachableFlows(s, steps);
    var d := After(s, Init(), steps).c.decoded[j];
    hide Runs, After;
    assert VideoClient.DecodeFlowOk(s, d);
    hide VideoClient.FlowOk, Bytes, Replay;
    if d.offsets != [] {
      VideoClient.DecodedIsFrameIff(s, d);
    }
    forall k: nat | VideoClient.CompletedAt(s, d.frame, d.offsets, k)
      ensures NoDup(d.offsets[..k]) <==> AllArrived(s, d.frame, d.offsets[..k]) && Bytes(s, d.frame, d.offsets[..k]) < DWORD_LIMIT
      ensures AllArrived(s, d.frame, d.offsets[..k]) ==> d.bytes == s.frames[d.frame]
    {
      VideoClient.DecodeIsFaithful(s, d, k);
    }
  }

  /** In every run, exactly when no client thread can step: each side is idle or waits for a unit that is not there. */
  lemma ClientStopsIff(s: Session, steps: seq<Step>)
    requires s.Ok() && Runs(s, Init(), steps)
    ensures var c := After(s, Init(), steps).c;
            && ((forall v :: VideoClient.ThreadStep(v) ==> !VideoClient.Enabled(s.config, c, v))
                <==> VideoClient.HandOffAtRest(c) && VideoClient.DecoderAtRest(c))
            && (c.consumer.ConsumerLocked? ==> (c.packets.count >= 1 <==> c.packets.failed < |c.packets.items|))
  {
    ReachableFlows(s, steps);
    var c := After(s, Init(), steps).c;
    hide Runs, After, VideoClient.Enabled, VideoClient.HandOffAtRest, VideoClient.DecoderAtRest;
    VideoClient.ClientStopsIff(s, c);
    VideoClient.FlowHasLocks(s, c);
    VideoClient.ConsumerWaitsForAUnit(c);
  }

  /** At every point of the run at most MAXINT packets and frame numbers are under way in the client. */
  ghost predicate LoadWithin(s: Session, st: State, steps: seq<Step>)
    requires s.config.Ok() && Runs(s, st, steps)
    decreases steps
  {
    VideoClient.Load(st.c) <= 0x7FFF_FFFF && (steps != [] ==> LoadWithin(s, Apply(s, st, steps[0]), steps[1..]))
  }

  lemma {:induction false} RunKeepsReleases(s: Session, st: State, steps: seq<Step>)
    requires s.Ok() && FlowOk(s, st) && VideoClient.NoneFailed(st.c) && Runs(s, st, steps) && LoadWithin(s, st, steps)
    ensures VideoClient.NoneFailed(After(s, st, steps).c) && VideoClient.Load(After(s, st, steps).c) <= 0x7FFF_FFFF
    decreases steps
  {
    hide Enabled, Apply, FlowOk, VideoClient.Load;
    if steps != [] {
      StepKeepsFlow(s, st, steps[0]);
      StepKeepsReleases(s, st, steps[0]);
      RunKeepsReleases(s, Apply(s, st, steps[0]), steps[1..]);
    }
  }

  lemma StepKeepsReleases(s: Session, st: State, step: Step)
    requires FlowOk(s, st) && VideoClient.NoneFailed(st.c) && VideoClient.Load(st.c) <= 0x7FFF_FFFF && Enabled(s, st, step)
    ensures VideoClient.NoneFailed(Apply(s, st, step).c)
  {
    hide Transport.Apply, Transport.Enabled, Transport.Inv, VideoClient.Apply, VideoClient.FlowOk, VideoClient.Load;
    VideoClient.FlowHasLocks(s, st.c);
    match step
    case HostSide(h) =>
    case ClientSide(v) => VideoClient.ReleasesSucceed(s.config, st.c, v);
    case Deliver(pkt) => VideoClient.ReleasesSucceed(s.config, st.c, VideoClient.Receive(pkt));
  }

  /** No more is under way than was read, so a run that delivers at most MAXINT datagrams keeps within. */
  lemma {:induction false} FewDeliveriesStayWithin(s: Session, st: State, steps: seq<Step>)
    requires s.config.Ok() && Runs(s, st, steps)
    requires VideoClient.Load(st.c) <= |st.c.read| && |st.c.read| + |Delivered(steps)| <= 0x7FFF_FFFF
    ensures LoadWithin(s, st, steps)
    decreases steps
  {
    hide Enabled, Apply, VideoClient.Load;
    if steps != [] {
      StepKeepsLoadRead(s, st, steps[0]);
      assert [steps[0]][1..] == [];
      FewDeliveriesStayWithin(s, Apply(s, st, steps[0]), steps[1..]);
    }
  }

  lemma StepKeepsLoadRead(s: Session, st: State, step: Step)
    requires s.config.Ok() && Enabled(s, st, step) && VideoClient.Load(st.c) <= |st.c.read|
    ensures VideoClient.Load(Apply(s, st, step).c) <= |Apply(s, st, step).c.read|
    ensures Apply(s, st, step).c.read == st.c.read + if step.Deliver? then [step.pkt] else []
  {
    hide Transport.Apply, Transport.Enabled;
    match step
    case HostSide(h) =>
    case ClientSide(v) =>
      if VideoClient.ThreadStep(v) {
        hide VideoClient.Apply, VideoClient.Enabled;
        VideoClient.ThreadStepKeepsLoad(s.config, st.c, v);
      }
    case Deliver(pkt) =>
  }

  /**
    Deadlock freedom. While at most MAXINT packets and frame numbers are under
    way, the consumer never waits in vain for packetQueue with dataMutex held,
    and some client thread can step exactly if anything is under way.
   */
  lemma NoDeadlock(s: Session, steps: seq<Step>)
    requires s.Ok() && Runs(s, Init(), steps) && LoadWithin(s, Init(), steps)
    ensures var c := After(s, Init(), steps).c;
            && (c.consumer.ConsumerLocked? ==> c.packets.count >= 1)
            && ((exists v :: VideoClient.ThreadStep(v) && VideoClient.Enabled(s.config, c, v)) <==> !VideoClient.Quiescent(c))
  {
    ReachableFlows(s, steps);
    ReleasesInRun(s, steps);
    var c := After(s, Init(), steps).c;
    hide Runs, After, LoadWithin, VideoClient.Enabled;
    VideoClient.FlowHasLocks(s, c);
    VideoClient.ConsumerWaitsForAUnit(c);
    if VideoClient.Quiescent(c) {
      VideoClient.ClientStopsIff(s, c);
    } else {
      var v := VideoClient.ClientNeverStuck(s, c);
    }
  }

  lemma ReleasesInRun(s: Session, steps: seq<Step>)
    requires s.Ok() && Runs(s, Init(), steps) && LoadWithin(s, Init(), steps)
    ensures VideoClient.NoneFailed(After(s, Init(), steps).c) && VideoClient.Load(After(s, Init(), steps).c) <= 0x7FFF_FFFF
  {
    hide Init, Runs, After, LoadWithin, FlowOk, VideoClient.NoneFailed, VideoClient.Load;
    InitFlows(s);
    NoneFailedYet();
    RunKeepsReleases(s, Init(), steps);
  }

  lemma NoneFailedYet()
    ensures VideoClient.NoneFailed(Init().c)
  {
  }

  // ----- Continuing a run -----

  lemma {:induction false} DeliveredJoin(a: seq<Step>, b: seq<Step>)
    ensures Delivered(a + b) == Delivered(a) + Delivered(b)
  {
    if a == [] {
      assert a + b == b;
    } else {
      DeliveredJoin(a[1..], b);
      FirstOfJoin(a, b);
    }
  }

  lemma FirstOfJoin(a: seq<Step>, b: seq<Step>)
    requires a != []
    ensures a + b != [] && (a + b)[0] == a[0] && (a + b)[1..] == a[1..] + b
  {
  }

  lemma {:induction false} RunsJoin(s: Session, st: State, a: seq<Step>, b: seq<Step>)
    requires s.config.Ok() && Runs(s, st, a) && Runs(s, After(s, st, a), b)
    ensures Runs(s, st, a + b) && After(s, st, a + b) == After(s, After(s, st, a), b)
    ensures Delivered(a + b) == Delivered(a) + Delivered(b)
    decreases a
  {
    hide Enabled, Apply, Delivered;
    DeliveredJoin(a, b);
    if a == [] {
      assert a + b == b;
    } else {
      RunsJoin(s, Apply(s, st, a[0]), a[1..], b);
      FirstOfJoin(a, b);
    }
  }

  /** Client thread steps as steps of the system. */
  function Lift(vs: seq<VideoClient.Step>): seq<Step> {
    if vs == [] then [] else [ClientSide(vs[0])] + Lift(vs[1..])
  }

  lemma {:induction false} LiftRuns(s: Session, st: State, vs: seq<VideoClient.Step>)
    requires s.config.Ok() && VideoClient.ThreadsRun(s.config, st.c, vs)
    ensures Runs(s, st, Lift(vs)) && After(s, st, Lift(vs)) == st.(c := VideoClient.ThreadsAfter(s.config, st.c, vs))
    ensures Delivered(Lift(vs)) == []
    decreases vs
  {
    hide VideoClient.Enabled, VideoClient.Apply, Transport.Enabled, Transport.Apply;
    if vs != [] {
      LiftRuns(s, Apply(s, st, ClientSide(vs[0])), vs[1..]);
      assert Lift(vs)[1..] == Lift(vs[1..]);
    }
  }

  /**
    Every run can be continued by the client's threads alone, in a bounded
    number of steps, until they have worked everything off; they have then
    decoded exactly the frames of which some first part of the deliveries passes
    the completion test.
   */
  lemma EveryRunCanFinish(s: Session, steps: seq<Step>) returns (more: seq<VideoClient.Step>)
    requires s.Ok() && Runs(s, Init(), steps) && LoadWithin(s, Init(), steps)
    ensures |more| <= VideoClient.Work(After(s, Init(), steps).c)
    ensures Runs(s, Init(), steps + Lift(more)) && Delivered(steps + Lift(more)) == Delivered(steps)
    ensures VideoClient.Quiescent(After(s, Init(), steps + Lift(more)).c)
    ensures forall n: nat :: ExactlyOnce.DecodedIn(After(s, Init(), steps + Lift(more)).c, n) <==> VideoClient.HasCompleted(s, n, DeliveredOf(steps, n))
  {
    ReachableFlows(s, steps);
    ReleasesInRun(s, steps);
    var st := After(s, Init(), steps);
    hide Runs, After, Delivered, LoadWithin, VideoClient.Work, VideoClient.Load, VideoClient.FlowOk, VideoClient.Quiescent, FlowOk;
    more := VideoClient.CanFinish(s, st.c);
    LiftRuns(s, st, more);
    RunsJoin(s, Init(), steps, Lift(more));
    assert Delivered(steps) + [] == Delivered(steps);
    hide ExactlyOnce.DecodedIn, VideoClient.HasCompleted;
    forall n: nat
      ensures ExactlyOnce.DecodedIn(After(s, Init(), steps + Lift(more)).c, n) <==> VideoClient.HasCompleted(s, n, DeliveredOf(steps, n))
    {
      QuiescentClientHasDecodedExactly(s, steps + Lift(more), n);
    }
  }

  // ----- Which frames are decoded -----

  lemma StepKeepsQueueTraced(s: Session, st: State, step: Step, n: nat)
    requires FlowOk(s, st) && s.Ok() && ExactlyOnce.QueueTraced(s, st.c, n) && Enabled(s, st, step)
    ensures ExactlyOnce.QueueTraced(s, Apply(s, st, step).c, n)
  {
    FlowIsOk(s, st);
    hide FlowOk, Transport.Apply, Transport.Enabled, VideoClient.Apply, VideoClient.FlowOk, ExactlyOnce.Traced, ExactlyOnce.QueueTraced;
    match step
    case HostSide(h) =>
    case ClientSide(v) => ExactlyOnce.StepKeepsQueueTraced(s, st.c, v, n);
    case Deliver(pkt) => ExactlyOnce.StepKeepsQueueTraced(s, st.c, VideoClient.Receive(pkt), n);
  }

  lemma {:induction false} RunKeepsQueueTraced(s: Session, st: State, steps: seq<Step>, n: nat)
    requires s.Ok() && FlowOk(s, st) && ExactlyOnce.QueueTraced(s, st.c, n) && Runs(s, st, steps)
    ensures ExactlyOnce.QueueTraced(s, After(s, st, steps).c, n)
    decreases steps
  {
    hide Enabled, Apply, FlowOk, ExactlyOnce.QueueTraced;
    if steps != [] {
      StepKeepsFlow(s, st, steps[0]);
      StepKeepsQueueTraced(s, st, steps[0], n);
      RunKeepsQueueTraced(s, Apply(s, st, steps[0]), steps[1..], n);
    }
  }

  lemma ReachableIsQueueTraced(s: Session, steps: seq<Step>, n: nat)
    requires s.Ok() && Runs(s, Init(), steps)
    ensures var c := After(s, Init(), steps).c;
            ExactlyOnce.QueueTraced(s, c, n) && ExactlyOnce.Traced(s, c) && VideoClient.LocksOk(c) && c.read == Delivered(steps)
  {
    InitFlows(s);
    ExactlyOnce.InitQueueTraced(s, n);
    ReachableFlows(s, steps);
    VideoClient.FlowHasLocks(s, After(s, Init(), steps).c);
    hide Runs, After, FlowOk, ExactlyOnce.QueueTraced, Delivered;
    RunKeepsQueueTraced(s, Init(), steps, n);
    FlowIsOk(s, After(s, Init(), steps));
  }

  /**
    Which frames a client has decoded that has worked off what it read, in every
    run: exactly those of which some first part of the deliveries passes the
    completion test. Arriving in full is neither needed for that nor enough.
   */
  lemma QuiescentClientHasDecodedExactly(s: Session, steps: seq<Step>, n: nat)
    requires s.Ok() && Runs(s, Init(), steps) && VideoClient.Quiescent(After(s, Init(), steps).c)
    ensures ExactlyOnce.DecodedIn(After(s, Init(), steps).c, n) <==> VideoClient.HasCompleted(s, n, DeliveredOf(steps, n))
  {
    ReachableIsQueueTraced(s, steps, n);
    hide Runs, After, Delivered, ExactlyOnce.QueueTraced, ExactlyOnce.DecodedIn, VideoClient.HasCompleted, ExactlyOnce.LivesTraced;
    ExactlyOnce.DecodedIffCompleted(s, After(s, Init(), steps).c, n);
  }

  /** Every packet of frame n, of which there is at least one, was delivered. */
  ghost predicate AllDelivered(s: Session, steps: seq<Step>, n: nat)
    requires s.config.Ok()
  {
    n < |s.frames| && s.Count(n) > 0 && forall i: nat :: i < s.Count(n) ==> s.PacketAt(n, i) in Delivered(steps)
  }

  /** Of a frame none of whose packets is delivered twice: exactly if it is delivered in full. */
  lemma QuiescentClientHasDecodedAll(s: Session, steps: seq<Step>, n: nat)
    requires s.Ok() && Runs(s, Init(), steps) && NoDup(DeliveredOf(steps, n))
    requires VideoClient.Quiescent(After(s, Init(), steps).c)
    ensures ExactlyOnce.DecodedIn(After(s, Init(), steps).c, n) <==> AllDelivered(s, steps, n)
  {
    ReachableIsQueueTraced(s, steps, n);
    hide Runs, After, Delivered, ExactlyOnce.QueueTraced, ExactlyOnce.DecodedIn, ExactlyOnce.Traced, ExactlyOnce.OffsetsIn;
    ExactlyOnce.DecodedIffAllRead(s, After(s, Init(), steps).c, n);
  }

  /**
    A frame none of whose packets is delivered twice, whatever happens to other
    frames: every picture the client decodes under its number is the host's
    frame, it is decoded once at most, and what the window paints under its
    number is the host's frame.
   */
  lemma ExactlyOnceDelivery(s: Session, steps: seq<Step>, n: nat)
    requires s.Ok() && Runs(s, Init(), steps) && NoDup(DeliveredOf(steps, n))
    ensures var c := After(s, Init(), steps).c;
            && (forall j :: 0 <= j < |c.decoded| && c.decoded[j].frame == n ==> n < |s.frames| && c.decoded[j].bytes == s.frames[n])
            && Display.DecodedOnce(c.decoded, n)
            && (var log := c.screen.log; forall i :: 0 <= i < |log| && log[i].Painted? && log[i].p.number == n ==>
                  n < |s.frames| && log[i].p.bitmap.bytes == s.frames[n])
  {
    BoundedDeliveriesCompleteOnce(s, steps, n);
    ReachableIsSafe(s, steps, n);
    ReachableFlows(s, steps);
    ReachableIsDisplayed(s, steps);
    var c := After(s, Init(), steps).c;
    hide Runs, After, Delivered, ExactlyOnce.OffsetsIn, ExactlyOnce.Traced, VideoClient.Inv, FlowOk, VideoClient.FlowOk, Display.Displayed;
    ExactlyOnce.DecodedOnceAndFaithfully(s, c, n);
    forall i | 0 <= i < |c.screen.log| && c.screen.log[i].Painted?
      ensures c.screen.log[i].p.bitmap in c.decoded && c.screen.log[i].p.number == c.screen.log[i].p.bitmap.frame
    {
      Display.PaintedWasDecoded(c, i);
    }
  }

  // ----- From the decoder to the window -----

  lemma {:induction false} RunKeepsDisplayed(s: Session, st: State, steps: seq<Step>)
    requires s.config.Ok() && Display.Displayed(st.c) && Runs(s, st, steps)
    ensures Display.Displayed(After(s, st, steps).c)
    decreases steps
  {
    hide Display.Displayed, VideoClient.Enabled, VideoClient.Apply, Transport.Enabled, Transport.Apply;
    if steps != [] {
      match steps[0]
      case HostSide(h) =>
      case ClientSide(v) => Display.StepKeepsDisplayed(s.config, st.c, v);
      case Deliver(pkt) => Display.StepKeepsDisplayed(s.config, st.c, VideoClient.Receive(pkt));
    }
    if steps != [] {
      RunKeepsDisplayed(s, Apply(s, st, steps[0]), steps[1..]);
    }
  }

  lemma ReachableIsDisplayed(s: Session, steps: seq<Step>)
    requires s.config.Ok() && Runs(s, Init(), steps)
    ensures Display.Displayed(After(s, Init(), steps).c)
  {
    Display.InitDisplayed();
    hide Runs, After, Display.Displayed;
    RunKeepsDisplayed(s, Init(), steps);
  }

  /**
    In every run the bitmaps decoded are, each as often as it was decoded, in the
    decoder's hand, waiting in the priority queue, or painted; failed decodes are
    nowhere.
   */
  lemma PicturesAreConserved(s: Session, steps: seq<Step>)
    requires s.config.Ok() && Runs(s, Init(), steps)
    ensures var c := After(s, Init(), steps).c;
            multiset(Display.Pictures(c.decoded))
            == multiset(Display.InHand(c)) + c.screen.queue + multiset(Screen.PaintedIn(c.screen.log))
  {
    ReachableIsDisplayed(s, steps);
    hide Display.Displayed;
    Display.PicturesConserved(After(s, Init(), steps).c);
  }

  /** The window shows only decoded frames, and a late frame only if it was decoded late. */
  lemma PaintedFramesInOrder(s: Session, steps: seq<Step>, i: nat, j: nat)
    requires s.config.Ok() && Runs(s, Init(), steps)
    requires var log := After(s, Init(), steps).c.screen.log;
             i < j < |log| && log[i].Painted? && log[j].Painted? && log[j].p.number < log[i].p.number
    ensures var c := After(s, Init(), steps).c;
            && c.screen.log[i].p.bitmap in c.decoded && c.screen.log[i].p.number == c.screen.log[i].p.bitmap.frame
            && (exists k :: i < k < j && c.screen.log[k] == Screen.Queued(c.screen.log[j].p))
  {
    ReachableIsDisplayed(s, steps);
    var c := After(s, Init(), steps).c;
    Display.PaintedWasDecoded(c, i);
    Screen.LateFramesWereQueuedLate(c.screen.log, i, j);
  }

  /** A frame none of whose packets is delivered twice is painted once at most. */
  lemma NoFrameIsPaintedTwice(s: Session, steps: seq<Step>, i: nat, j: nat)
    requires s.Ok() && Runs(s, Init(), steps)
    requires var log := After(s, Init(), steps).c.screen.log;
             i < j < |log| && log[i].Painted? && log[j].Painted? && NoDup(DeliveredOf(steps, log[i].p.number))
    ensures var log := After(s, Init(), steps).c.screen.log; log[i].p.number != log[j].p.number
  {
    hide Display.Displayed, Runs, After, Delivered, ExactlyOnce.OffsetsIn;
    var c := After(s, Init(), steps).c;
    ExactlyOnceDelivery(s, steps, c.screen.log[i].p.number);
    ReachableIsDisplayed(s, steps);
    Display.NoFramePaintedTwice(c, i, j);
  }

  /** Of distinct deliveries none of any frame is repeated. */
  lemma DistinctDeliveries(s: Session, steps: seq<Step>, n: nat)
    requires s.Ok() && Runs(s, Init(), steps) && NoDup(Delivered(steps))
    ensures NoDup(DeliveredOf(steps, n))
  {
    ReachableFlows(s, steps);
    hide Runs, After, Delivered, VideoClient.FlowOk, ExactlyOnce.OffsetsIn;
    ExactlyOnce.DistinctPacketsDistinctOffsets(s, Delivered(steps), n);
  }

  /**
    When no datagram is delivered twice, all of this holds of all frames: what is
    decoded and painted is the host's, no frame is decoded or painted twice, and
    a client that has worked everything off has decoded exactly the frames
    delivered in full.
   */
  lemma AllFramesExactlyOnce(s: Session, steps: seq<Step>)
    requires s.Ok() && Runs(s, Init(), steps) && forall n: nat :: NoDup(DeliveredOf(steps, n))
    ensures var c := After(s, Init(), steps).c;
            && (forall j :: 0 <= j < |c.decoded| ==> c.decoded[j].frame < |s.frames| && c.decoded[j].bytes == s.frames[c.decoded[j].frame])
            && (forall j, k :: 0 <= j < k < |c.decoded| ==> c.decoded[j].frame != c.decoded[k].frame)
            && (var log := c.screen.log;
                forall i, j :: 0 <= i < j < |log| && log[i].Painted? && log[j].Painted? ==> log[i].p.number != log[j].p.number)
            && (VideoClient.Quiescent(c) ==> forall n: nat :: ExactlyOnce.DecodedIn(c, n) <==> AllDelivered(s, steps, n))
  {
    hide Runs, After, Delivered, ExactlyOnce.OffsetsIn, VideoClient.Quiescent, ExactlyOnce.DecodedIn, AllDelivered;
    var c := After(s, Init(), steps).c;
    forall j | 0 <= j < |c.decoded|
      ensures c.decoded[j].frame < |s.frames| && c.decoded[j].bytes == s.frames[c.decoded[j].frame]
      ensures forall k :: j < k < |c.decoded| ==> c.decoded[j].frame != c.decoded[k].frame
    {
      ExactlyOnceDelivery(s, steps, c.decoded[j].frame);
    }
    forall i, j | 0 <= i < j < |c.screen.log| && c.screen.log[i].Painted? && c.screen.log[j].Painted?
      ensures c.screen.log[i].p.number != c.screen.log[j].p.number
    {
      NoFrameIsPaintedTwice(s, steps, i, j);
    }
    if VideoClient.Quiescent(c) {
      forall n: nat
        ensures ExactlyOnce.DecodedIn(c, n) <==> AllDelivered(s, steps, n)
      {
        QuiescentClientHasDecodedAll(s, steps, n);
      }
    }
  }

  // ----- No silent loss, up to the client's socket -----

  /** The numbers of the datagrams read. */
  function ReadNumbers(read: seq<Packet>): set<nat> {
    set j | 0 <= j < |read| :: read[j].sequenceNumber
  }

  /** What holds of the transport in every run, whether or not a byte total wraps. */
  ghost predicate TransportOk(s: Session, st: State) {
    && Transport.Inv(s, st.t)
    && ExactlyOnce.ReadGenuine(s, st.c)
    && st.t.received == ReadNumbers(st.c.read)
  }

  lemma ReadOneMore(read: seq<Packet>, pkt: Packet)
    ensures ReadNumbers(read + [pkt]) == ReadNumbers(read) + {pkt.sequenceNumber}
  {
    var more := read + [pkt];
    assert more[|read|] == pkt;
    assert forall j :: 0 <= j < |read| ==> more[j] == read[j];
  }

  lemma HostStepReceivesNothing(s: Session, t: Transport.State, h: Transport.Step)
    requires s.config.Ok() && Transport.Enabled(s, t, h) && !h.Receive?
    ensures Transport.Apply(s, t, h).received == t.received
  {
  }

  lemma StepKeepsTransportOk(s: Session, st: State, step: Step)
    requires TransportOk(s, st) && Enabled(s, st, step)
    ensures TransportOk(s, Apply(s, st, step))
  {
    hide Transport.SenderOk, Transport.RecentOk, Session.Genuine, ReadNumbers;
    match step
    case HostSide(h) =>
      Transport.StepKeepsInv(s, st.t, h);
      HostStepReceivesNothing(s, st.t, h);
    case ClientSide(v) =>
      ReadsOnlyDeliveries(s, st.c, v);
    case Deliver(pkt) =>
      Transport.StepKeepsInv(s, st.t, Transport.Receive(pkt));
      ReadOneMore(st.c.read, pkt);
  }

  lemma {:induction false} RunKeepsTransportOk(s: Session, st: State, steps: seq<Step>)
    requires s.Ok() && TransportOk(s, st) && Runs(s, st, steps)
    ensures TransportOk(s, After(s, st, steps))
    decreases steps
  {
    hide TransportOk, Enabled, Apply;
    if steps != [] {
      StepKeepsTransportOk(s, st, steps[0]);
      RunKeepsTransportOk(s, Apply(s, st, steps[0]), steps[1..]);
    }
  }

  /**
    In every run, each packet the host has sent was read by the client exactly
    as sent, or is saved exactly as sent, or was discarded by an overflow clear.
   */
  lemma SentPacketsAreAccountedFor(s: Session, steps: seq<Step>, k: nat)
    requires s.Ok() && Runs(s, Init(), steps)
    requires var t := After(s, Init(), steps).t; t.sender.frame <= |s.frames| && k < Transport.SentCount(s, t)
    ensures var st := After(s, Init(), steps);
            && k < s.Total()
            && (s.PacketOf(k) in st.c.read || (k in st.t.recent && st.t.recent[k] == s.PacketOf(k)) || k in st.t.dropped)
  {
    hide Enabled, Apply, Session.PacketOf, Session.Genuine;
    Transport.InitKeepsInv(s);
    RunKeepsTransportOk(s, Init(), steps);
    var st := After(s, Init(), steps);
    if k in st.t.received {
      var j :| 0 <= j < |st.c.read| && st.c.read[j].sequenceNumber == k;
      GenuineByNumber(s, st.c.read[j]);
    }
  }
}

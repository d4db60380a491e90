/**
  How a run of the whole system can be continued: the client's threads work off
  what is under way, a datagram in flight is delivered.
 */
module Continuations {
  import opened Packets
  import opened Sequencing
  import SQ = SemaphoreQueue
  import Transport
  import VideoClient
  import ExactlyOnce
  import opened Streaming
  import opened SystemRuns

  /** What is needed to continue a run by thread steps. */
  ghost predicate CanGoOn(s: Session, st: State) {
    && s.Ok()
    && FlowOk(s, st)
    && TransportOk(s, st)
    && VideoClient.NoneFailed(st.c)
    && VideoClient.Load(st.c) <= 0x7FFF_FFFF
  }

  lemma GoingOnIsOk(s: Session, st: State)
    requires CanGoOn(s, st)
    ensures s.Ok() && FlowOk(s, st) && VideoClient.FlowOk(s, st.c) && TransportOk(s, st)
  {
    FlowIsOk(s, st);
  }

  /** No step of the run duplicates a datagram, no pass resends one. */
  predicate AddsNoCopy(steps: seq<Step>) {
    forall step :: step in steps && step.HostSide? ==> !step.h.DuplicatePacket? && !step.h.AckPass?
  }

  /** Every call of decodeImage in the run returns a bitmap. */
  predicate DecodesSucceed(steps: seq<Step>) {
    forall j :: 0 <= j < |steps| && steps[j].ClientSide? && steps[j].v.DecodeFrame? ==> steps[j].v.ok
  }

  lemma {:induction false} LiftSucceeds(vs: seq<VideoClient.Step>)
    requires forall j :: 0 <= j < |vs| && vs[j].DecodeFrame? ==> vs[j].ok
    ensures DecodesSucceed(Lift(vs))
  {
    if vs != [] {
      LiftSucceeds(vs[1..]);
    }
  }

  lemma {:induction false} LiftAddsNoCopy(vs: seq<VideoClient.Step>)
    ensures AddsNoCopy(Lift(vs))
  {
    if vs != [] {
      LiftAddsNoCopy(vs[1..]);
    }
  }

  lemma StartsGoingOn(s: Session)
    requires s.Ok()
    ensures CanGoOn(s, Init())
  {
    hide FlowOk, TransportOk, VideoClient.Load, VideoClient.NoneFailed;
    InitFlows(s);
    StartsTransported(s);
    StartsAtRest();
  }

  lemma StartsTransported(s: Session)
    requires s.Ok()
    ensures TransportOk(s, Init())
  {
    hide Transport.Inv, Session.Genuine;
    Transport.InitKeepsInv(s);
  }

  lemma StartsAtRest()
    ensures VideoClient.NoneFailed(Init().c) && VideoClient.Load(Init().c) == 0
  {
  }

  lemma GoesOnAfterHost(s: Session, st: State, h: Transport.Step)
    requires CanGoOn(s, st) && Enabled(s, st, HostSide(h))
    ensures CanGoOn(s, Apply(s, st, HostSide(h)))
  {
    StepKeepsTransportOk(s, st, HostSide(h));
    StepKeepsFlow(s, st, HostSide(h));
    hide FlowOk, TransportOk, VideoClient.Load, Transport.Apply, Transport.Enabled;
  }

  /** The client's threads work everything off. */
  lemma CanRest(s: Session, st: State) returns (steps: seq<Step>)
    requires CanGoOn(s, st)
    ensures Runs(s, st, steps) && AddsNoCopy(steps) && Faultless(steps) && DecodesSucceed(steps) && Delivered(steps) == []
    ensures var u := After(s, st, steps); CanGoOn(s, u) && u.t == st.t && VideoClient.Quiescent(u.c)
  {
    hide TransportOk, FlowOk, VideoClient.FlowOk, VideoClient.Load, VideoClient.ThreadsRun, VideoClient.ThreadsAfter, Runs, After, Delivered;
    GoingOnIsOk(s, st);
    var vs := VideoClient.CanFinish(s, st.c);
    LiftRuns(s, st, vs);
    LiftAddsNoCopy(vs);
    LiftIsFaultless(vs);
    LiftSucceeds(vs);
    steps := Lift(vs);
    RunKeepsTransportOk(s, st, steps);
    RunKeepsFlow(s, st, steps);
    RestIsNoLoad(After(s, st, steps).c);
  }

  lemma RestIsNoLoad(c: VideoClient.State)
    requires VideoClient.Quiescent(c)
    ensures VideoClient.Load(c) == 0
  {
  }

  /** The datagram is received, and nothing else happens to host and network. */
  ghost predicate Took(s: Session, t: Transport.State, u: Transport.State, pkt: Packet)
    requires s.config.Ok()
  {
    pkt in t.toClient && u == Transport.Apply(s, t, Transport.Receive(pkt))
  }

  /** A datagram in flight can be delivered, once the client has worked off what it has. */
  lemma CanDeliver(s: Session, st: State, pkt: Packet) returns (steps: seq<Step>)
    requires s.config.Ok() && CanGoOn(s, st) && pkt in st.t.toClient
    ensures Runs(s, st, steps) && AddsNoCopy(steps) && Faultless(steps) && DecodesSucceed(steps) && Delivered(steps) == [pkt]
    ensures CanGoOn(s, After(s, st, steps)) && Took(s, st.t, After(s, st, steps).t, pkt)
  {
    hide TransportOk, FlowOk, VideoClient.Load, Runs, After, Delivered, VideoClient.Quiescent, VideoClient.NoneFailed;
    var rest := CanRest(s, st);
    var u := After(s, st, rest);
    QuiescentTakes(s, u, pkt);
    OneStep(s, u, Deliver(pkt));
    RunsJoin(s, st, rest, [Deliver(pkt)]);
    steps := rest + [Deliver(pkt)];
    assert [] + [pkt] == [pkt];
    RunKeepsTransportOk(s, st, steps);
    RunKeepsFlow(s, st, steps);
  }

  lemma QuiescentTakes(s: Session, st: State, pkt: Packet)
    requires s.config.Ok() && pkt in st.t.toClient && VideoClient.Quiescent(st.c) && VideoClient.NoneFailed(st.c)
    ensures Enabled(s, st, Deliver(pkt))
    ensures var u := Apply(s, st, Deliver(pkt));
            VideoClient.NoneFailed(u.c) && VideoClient.Load(u.c) == 1 && u.t == Transport.Apply(s, st.t, Transport.Receive(pkt))
  {
    hide Transport.Apply;
  }
}

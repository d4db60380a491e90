/**
  That things happen: what a run decodes and queues is what its steps say, the
  window can always show what waits, and every session has a run in which the
  whole stream is sent, received, decoded and painted.
 */
module Progress {
  import opened Words
  import opened Packets
  import opened Sequencing
  import opened Reassembly
  import Transport
  import HostProgress
  import VideoClient
  import Screen
  import ExactlyOnce
  import Display
  import opened Streaming
  import opened SystemRuns
  import opened Continuations

  // ----- What a run decodes -----

  /** The call of decodeImage that a step makes, with its bytes and its outcome. */
  ghost function DecodeNow(st: State, step: Step): seq<VideoClient.Decode> {
    if step.ClientSide? && step.v.DecodeFrame? && st.c.decoder.HasFrame? then
      var life := VideoClient.Lookup(st.c.active, st.c.decoder.number);
      [VideoClient.Decode(st.c.decoder.number, life.buffer.chunks, life.offsets, step.v.ok)]
    else []
  }

  ghost function DecodesOf(s: Session, st: State, steps: seq<Step>): seq<VideoClient.Decode>
    requires s.config.Ok() && Runs(s, st, steps)
    decreases steps
  {
    if steps == [] then [] else DecodeNow(st, steps[0]) + DecodesOf(s, Apply(s, st, steps[0]), steps[1..])
  }

  /** The pictures of the calls that returned a bitmap: the run's successful decode steps, in order. */
  ghost function PicturesOf(s: Session, st: State, steps: seq<Step>): seq<Screen.Picture<VideoClient.Decode>>
    requires s.config.Ok() && Runs(s, st, steps)
    decreases steps
  {
    if steps == [] then []
    else
      (if steps[0].ClientSide? && steps[0].v == VideoClient.DecodeFrame(true)
       then [Screen.Picture(st.c.decoder.number, DecodeNow(st, steps[0])[0])] else [])
      + PicturesOf(s, Apply(s, st, steps[0]), steps[1..])
  }

  lemma StepDecodes(s: Session, st: State, step: Step)
    requires s.config.Ok() && Enabled(s, st, step)
    ensures Apply(s, st, step).c.decoded == st.c.decoded + DecodeNow(st, step)
  {
    hide Transport.Apply, Transport.Enabled, Acceptable, Absorb, Complete, VideoClient.Lookup;
  }

  lemma {:induction false} RunDecodes(s: Session, st: State, steps: seq<Step>)
    requires s.config.Ok() && Runs(s, st, steps)
    ensures After(s, st, steps).c.decoded == st.c.decoded + DecodesOf(s, st, steps)
    decreases steps
  {
    hide Enabled, Apply, DecodeNow;
    if steps != [] {
      StepDecodes(s, st, steps[0]);
      RunDecodes(s, Apply(s, st, steps[0]), steps[1..]);
    }
  }

  /** The pictures queued so far and then the one in the decoder's hand. */
  ghost function Produced(c: VideoClient.State): seq<Screen.Picture<VideoClient.Decode>> {
    Screen.QueuedIn(c.screen.log) + Display.InHand(c)
  }

  lemma StepProduces(s: Session, st: State, step: Step)
    requires s.config.Ok() && Enabled(s, st, step)
    ensures Produced(Apply(s, st, step).c)
         == Produced(st.c) + if step.ClientSide? && step.v == VideoClient.DecodeFrame(true)
                             then [Screen.Picture(st.c.decoder.number, DecodeNow(st, step)[0])] else []
  {
    hide Transport.Apply, Transport.Enabled, VideoClient.Apply, VideoClient.Enabled, Produced, DecodeNow;
    match step
    case HostSide(h) =>
    case ClientSide(v) => ClientProduces(s.config, st, v);
    case Deliver(pkt) => ClientProduces(s.config, st, VideoClient.Receive(pkt));
  }

  lemma ClientProduces(c: Config, st: State, v: VideoClient.Step)
    requires VideoClient.Enabled(c, st.c, v)
    ensures Produced(VideoClient.Apply(c, st.c, v))
         == Produced(st.c) + if v == VideoClient.DecodeFrame(true)
                             then [Screen.Picture(st.c.decoder.number, DecodeNow(st, ClientSide(v))[0])] else []
  {
    hide Acceptable, VideoClient.Absorbed, VideoClient.Lookup, Screen.QueuedIn, Screen.CanPaint;
    var u := VideoClient.Apply(c, st.c, v);
    match v
    case DecodeFrame(ok) =>
    case ShowFrame =>
      if st.c.decoder.d.ok {
        Screen.QueuedGrows(st.c.screen.log, Screen.Queued(Screen.Picture(st.c.decoder.number, st.c.decoder.d)));
      }
    case Paint(p) => Screen.QueuedGrows(st.c.screen.log, Screen.Painted(p));
    case Tick => Screen.QueuedGrows(st.c.screen.log, Screen.Ticked);
    case _ => Display.OthersShowNothing(c, st.c, v);
  }

  lemma {:induction false} RunProduces(s: Session, st: State, steps: seq<Step>)
    requires s.config.Ok() && Runs(s, st, steps)
    ensures Produced(After(s, st, steps).c) == Produced(st.c) + PicturesOf(s, st, steps)
    decreases steps
  {
    hide Enabled, Apply, Produced, DecodeNow;
    if steps != [] {
      StepProduces(s, st, steps[0]);
      RunProduces(s, Apply(s, st, steps[0]), steps[1..]);
    }
  }

  /**
    In every run, what has been decoded is what its decode steps found in the
    buffers, in order, each with the outcome of the step; and the pictures queued
    so far, then the one in hand, are those of the steps that returned a bitmap.
   */
  lemma DecodesAreTheSteps(s: Session, steps: seq<Step>)
    requires s.config.Ok() && Runs(s, Init(), steps)
    ensures After(s, Init(), steps).c.decoded == DecodesOf(s, Init(), steps)
    ensures Screen.QueuedIn(After(s, Init(), steps).c.screen.log) + Display.InHand(After(s, Init(), steps).c) == PicturesOf(s, Init(), steps)
  {
    NothingProduced();
    hide Runs, After, DecodesOf, PicturesOf, Init;
    RunDecodes(s, Init(), steps);
    RunProduces(s, Init(), steps);
    assert [] + DecodesOf(s, Init(), steps) == DecodesOf(s, Init(), steps);
    assert [] + PicturesOf(s, Init(), steps) == PicturesOf(s, Init(), steps);
  }

  lemma NothingProduced()
    ensures Produced(Init().c) == [] && Init().c.decoded == []
  {
  }

  // ----- The window shows what waits -----

  predicate WindowStep(step: Step) {
    step.ClientSide? && (step.v.Tick? || step.v.Paint?)
  }

  /** Ticks and paints alone empty the queue: every picture waiting is painted, once for each time it waits. */
  lemma {:induction false} CanShowAll(s: Session, st: State) returns (steps: seq<Step>)
    requires s.config.Ok()
    ensures Runs(s, st, steps) && (forall j :: 0 <= j < |steps| ==> WindowStep(steps[j])) && Delivered(steps) == []
    ensures var u := After(s, st, steps);
            && u == st.(c := st.c.(screen := u.c.screen)) && u.c.screen.queue == multiset{}
            && multiset(Screen.PaintedIn(u.c.screen.log)) == multiset(Screen.PaintedIn(st.c.screen.log)) + st.c.screen.queue
    decreases |st.c.screen.queue|
  {
    hide Runs, After, Delivered, Screen.PaintedIn;
    if st.c.screen.queue == multiset{} {
      steps := [];
      NoStep(s, st);
    } else {
      var p := ShowOne(s, st);
      var tick, paint := ClientSide(VideoClient.Tick), ClientSide(VideoClient.Paint(p));
      var u := After(s, st, [tick, paint]);
      var rest := CanShowAll(s, u);
      RunsJoin(s, st, [tick, paint], rest);
      steps := [tick, paint] + rest;
    }
  }

  lemma WindowIsFaultless(steps: seq<Step>)
    requires forall j :: 0 <= j < |steps| ==> WindowStep(steps[j])
    ensures Faultless(steps) && DecodesSucceed(steps)
  {
  }

  lemma TickStep(s: Session, st: State)
    requires s.config.Ok()
    ensures var tick := ClientSide(VideoClient.Tick);
            && Enabled(s, st, tick)
            && Apply(s, st, tick) == st.(c := st.c.(screen := Screen.State(st.c.screen.queue, true, st.c.screen.log + [Screen.Ticked])))
  {
  }

  lemma PaintStep(s: Session, st: State, p: Screen.Picture<VideoClient.Decode>)
    requires s.config.Ok() && st.c.screen.loadFrame && Screen.IsTop(st.c.screen.queue, p)
    ensures var paint := ClientSide(VideoClient.Paint(p));
            && Enabled(s, st, paint)
            && Apply(s, st, paint)
               == st.(c := st.c.(screen := Screen.State(st.c.screen.queue - multiset{p}, false, st.c.screen.log + [Screen.Painted(p)])))
  {
    hide Screen.IsTop;
  }

  lemma TwoSteps(s: Session, st: State, a: Step, b: Step)
    requires s.config.Ok() && Enabled(s, st, a) && Enabled(s, Apply(s, st, a), b) && !a.Deliver? && !b.Deliver?
    ensures Runs(s, st, [a, b]) && After(s, st, [a, b]) == Apply(s, Apply(s, st, a), b) && Delivered([a, b]) == []
  {
    hide Enabled, Apply, Runs, After, Delivered;
    OneStep(s, st, a);
    OneStep(s, Apply(s, st, a), b);
    RunsJoin(s, st, [a], [b]);
    assert [a] + [b] == [a, b];
  }

  /** A tick and a paint show one picture. */
  lemma ShowOne(s: Session, st: State) returns (p: Screen.Picture<VideoClient.Decode>)
    requires s.config.Ok() && st.c.screen.queue != multiset{}
    ensures p in st.c.screen.queue
    ensures var steps := [ClientSide(VideoClient.Tick), ClientSide(VideoClient.Paint(p))];
            && Runs(s, st, steps) && Delivered(steps) == []
            && var u := After(s, st, steps);
            && u == st.(c := st.c.(screen := u.c.screen)) && u.c.screen.queue == st.c.screen.queue - multiset{p}
            && multiset(Screen.PaintedIn(u.c.screen.log)) == multiset(Screen.PaintedIn(st.c.screen.log)) + multiset{p}
  {
    p := Screen.TopExists(st.c.screen.queue);
    assert p in st.c.screen.queue;
    hide Runs, After, Delivered, Screen.PaintedIn, Screen.IsTop, Enabled, Apply;
    TickStep(s, st);
    var u := Apply(s, st, ClientSide(VideoClient.Tick));
    PaintStep(s, u, p);
    TwoSteps(s, st, ClientSide(VideoClient.Tick), ClientSide(VideoClient.Paint(p)));
    Screen.PaintedGrows(st.c.screen.log, Screen.Ticked);
    Screen.PaintedGrows(u.c.screen.log, Screen.Painted(p));
  }

  // ----- A run in which the whole stream gets through -----

  /** Steps of the host and the network as steps of the system. */
  function LiftHost(hs: seq<Transport.Step>): seq<Step> {
    if hs == [] then [] else [HostSide(hs[0])] + LiftHost(hs[1..])
  }

  /** Whatever host and network can do on their own they can do in the system, in any state of the client. */
  lemma {:induction false} LiftHostRuns(s: Session, st: State, hs: seq<Transport.Step>)
    requires s.config.Ok() && Transport.Runs(s, st.t, hs) && forall j :: 0 <= j < |hs| ==> !hs[j].Receive?
    ensures Runs(s, st, LiftHost(hs)) && After(s, st, LiftHost(hs)) == st.(t := Transport.After(s, st.t, hs))
    ensures Delivered(LiftHost(hs)) == []
    decreases hs
  {
    hide VideoClient.Enabled, VideoClient.Apply, Transport.Enabled, Transport.Apply;
    if hs != [] {
      LiftHostRuns(s, Apply(s, st, HostSide(hs[0])), hs[1..]);
      assert LiftHost(hs)[1..] == LiftHost(hs[1..]);
    }
  }

  lemma {:induction false} LiftSenderIsFaultless(hs: seq<Transport.Step>)
    requires forall j :: 0 <= j < |hs| ==> HostProgress.SenderStep(hs[j])
    ensures Faultless(LiftHost(hs)) && DecodesSucceed(LiftHost(hs))
  {
    if hs != [] {
      LiftSenderIsFaultless(hs[1..]);
    }
  }

  /** The datagrams in flight can all be delivered, in any order asked for. */
  lemma {:induction false} CanDeliverAll(s: Session, st: State, pkts: seq<Packet>) returns (steps: seq<Step>)
    requires CanGoOn(s, st) && s.config.Ok() && multiset(pkts) <= st.t.toClient
    ensures Runs(s, st, steps) && Faultless(steps) && DecodesSucceed(steps) && Delivered(steps) == pkts
    ensures CanGoOn(s, After(s, st, steps))
    decreases |pkts|
  {
    hide CanGoOn, Runs, After, Transport.Apply, Delivered;
    if pkts == [] {
      steps := [];
      NoStep(s, st);
    } else {
      assert pkts == [pkts[0]] + pkts[1..];
      var first := CanDeliver(s, st, pkts[0]);
      var u := After(s, st, first);
      TakesOne(s, st.t, pkts[0]);
      var rest := CanDeliverAll(s, u, pkts[1..]);
      RunsJoin(s, st, first, rest);
      steps := first + rest;
    }
  }

  lemma NoStep(s: Session, st: State)
    requires s.config.Ok()
    ensures Runs(s, st, []) && After(s, st, []) == st && Delivered([]) == []
  {
  }

  lemma TakesOne(s: Session, t: Transport.State, pkt: Packet)
    requires s.config.Ok() && pkt in t.toClient
    ensures Transport.Apply(s, t, Transport.Receive(pkt)).toClient == t.toClient - multiset{pkt}
  {
  }

  /** The host sends the whole stream. */
  lemma WholeStreamSent(s: Session) returns (steps: seq<Step>)
    requires s.Ok()
    ensures Runs(s, Init(), steps) && Faultless(steps) && DecodesSucceed(steps) && Delivered(steps) == []
    ensures CanGoOn(s, After(s, Init(), steps))
    ensures multiset(HostProgress.Stretch(s, 0, s.Total())) <= After(s, Init(), steps).t.toClient
  {
    hide Runs, After, Delivered, Transport.Inv, Transport.Runs, Transport.After, HostProgress.Stretch, FlowOk, TransportOk, VideoClient.Load;
    Transport.InitKeepsInv(s);
    var hs := HostProgress.CanSendAll(s, Init().t);
    LiftHostRuns(s, Init(), hs);
    LiftSenderIsFaultless(hs);
    steps := LiftHost(hs);
    StartsGoingOn(s);
    RunKeepsTransportOk(s, Init(), steps);
    RunKeepsFlow(s, Init(), steps);
  }

  /** The whole stream is delivered, each packet once, in order, and worked off. */
  lemma WholeStreamDelivered(s: Session) returns (steps: seq<Step>)
    requires s.Ok()
    ensures Runs(s, Init(), steps) && Faultless(steps) && DecodesSucceed(steps)
    ensures Delivered(steps) == HostProgress.Stretch(s, 0, s.Total())
    ensures VideoClient.Quiescent(After(s, Init(), steps).c)
  {
    hide Runs, After, Delivered, CanGoOn, HostProgress.Stretch, VideoClient.Quiescent;
    var a := WholeStreamSent(s);
    var st := After(s, Init(), a);
    var b := CanDeliverAll(s, st, HostProgress.Stretch(s, 0, s.Total()));
    var d := CanRest(s, After(s, st, b));
    RunsJoin(s, st, b, d);
    RunsJoin(s, Init(), a, b + d);
    steps := a + (b + d);
    assert [] + (HostProgress.Stretch(s, 0, s.Total()) + []) == HostProgress.Stretch(s, 0, s.Total());
  }

  lemma StretchIsDistinct(s: Session)
    requires s.Ok()
    ensures NoDup(HostProgress.Stretch(s, 0, s.Total()))
  {
    hide Session.PacketOf;
    forall i, j | 0 <= i < j < s.Total()
      ensures HostProgress.Stretch(s, 0, s.Total())[i] != HostProgress.Stretch(s, 0, s.Total())[j]
    {
      PacketOfNumber(s, i);
      PacketOfNumber(s, j);
    }
  }

  lemma StretchHasAll(s: Session, n: nat, i: nat)
    requires s.Ok() && s.Valid(n, i)
    ensures s.PacketAt(n, i) in HostProgress.Stretch(s, 0, s.Total())
  {
    hide Session.PacketOf, Session.PacketAt;
    NumberOfPacket(s, n, i);
    assert HostProgress.Stretch(s, 0, s.Total())[s.SeqOf(n, i)] == s.PacketAt(n, i);
  }

  lemma {:induction false} SucceedsOnly(s: Session, st: State, steps: seq<Step>)
    requires s.config.Ok() && Runs(s, st, steps) && DecodesSucceed(steps)
    ensures forall j :: 0 <= j < |DecodesOf(s, st, steps)| ==> DecodesOf(s, st, steps)[j].ok
    decreases steps
  {
    hide Enabled, Apply;
    if steps != [] {
      assert forall j :: 0 <= j < |steps[1..]| ==> steps[1..][j] == steps[j + 1];
      SucceedsOnly(s, Apply(s, st, steps[0]), steps[1..]);
    }
  }

  /** Frame n has been painted as the host's frame. */
  ghost predicate Shown(s: Session, c: VideoClient.State, n: nat) {
    exists i :: 0 <= i < |c.screen.log| && c.screen.log[i].Painted? && c.screen.log[i].p.number == n < |s.frames|
                && c.screen.log[i].p.bitmap.bytes == s.frames[n]
  }

  /**
    The stream can be shown: every session has a run without any fault in which
    every frame that is not empty is decoded and painted as the host's frame,
    and nothing is left under way or waiting.
   */
  lemma StreamCanBeShown(s: Session) returns (steps: seq<Step>)
    requires s.Ok()
    ensures Runs(s, Init(), steps) && Faultless(steps)
    ensures var c := After(s, Init(), steps).c;
            && VideoClient.Quiescent(c) && c.screen.queue == multiset{}
            && forall n: nat :: n < |s.frames| && s.frames[n] != [] ==> Shown(s, c, n)
  {
    hide Runs, After, Delivered, HostProgress.Stretch, VideoClient.Quiescent, Shown, Screen.PaintedIn, DecodesOf;
    var a := WholeStreamDelivered(s);
    var st := After(s, Init(), a);
    var b := CanShowAll(s, st);
    WindowIsFaultless(b);
    RunsJoin(s, Init(), a, b);
    steps := a + b;
    RestStays(st.c, After(s, st, b).c);
    var c := After(s, Init(), steps).c;
    assert Delivered(steps) == HostProgress.Stretch(s, 0, s.Total());
    SucceedsOnly(s, Init(), steps);
    DecodesAreTheSteps(s, steps);
    forall n: nat | n < |s.frames| && s.frames[n] != []
      ensures Shown(s, c, n)
    {
      FrameIsShown(s, steps, n);
    }
  }

  lemma RestStays(c: VideoClient.State, u: VideoClient.State)
    requires VideoClient.Quiescent(c) && u == c.(screen := u.screen)
    ensures VideoClient.Quiescent(u)
  {
  }

  lemma FrameIsDecoded(s: Session, steps: seq<Step>, n: nat) returns (j: nat)
    requires s.Ok() && Runs(s, Init(), steps) && Delivered(steps) == HostProgress.Stretch(s, 0, s.Total())
    requires VideoClient.Quiescent(After(s, Init(), steps).c) && n < |s.frames| && s.frames[n] != []
    ensures var c := After(s, Init(), steps).c; j < |c.decoded| && c.decoded[j].frame == n && c.decoded[j].bytes == s.frames[n]
  {
    CountIsExact(|s.frames[n]|, s.P());
    hide MakePacket, PacketCount, Session.PacketAt, Runs, After, Delivered, HostProgress.Stretch, VideoClient.Quiescent, ExactlyOnce.OffsetsIn, Display.DecodedOnce;
    StretchIsDistinct(s);
    DistinctDeliveries(s, steps, n);
    forall i: nat | i < s.Count(n)
      ensures s.PacketAt(n, i) in Delivered(steps)
    {
      StretchHasAll(s, n, i);
    }
    QuiescentClientHasDecodedAll(s, steps, n);
    ExactlyOnceDelivery(s, steps, n);
    var c := After(s, Init(), steps).c;
    j :| 0 <= j < |c.decoded| && c.decoded[j].frame == n;
  }

  /** A frame decoded with a bitmap, nothing of which waits or is in hand, has been painted. */
  lemma FrameIsShown(s: Session, steps: seq<Step>, n: nat)
    requires s.Ok() && Runs(s, Init(), steps) && Delivered(steps) == HostProgress.Stretch(s, 0, s.Total())
    requires VideoClient.Quiescent(After(s, Init(), steps).c) && After(s, Init(), steps).c.screen.queue == multiset{}
    requires forall j :: 0 <= j < |After(s, Init(), steps).c.decoded| ==> After(s, Init(), steps).c.decoded[j].ok
    requires n < |s.frames| && s.frames[n] != []
    ensures Shown(s, After(s, Init(), steps).c, n)
  {
    hide Runs, After, Delivered, HostProgress.Stretch, Screen.PaintedIn, Display.Pictures;
    var j := FrameIsDecoded(s, steps, n);
    var c := After(s, Init(), steps).c;
    PicturesAreConserved(s, steps);
    assert Display.InHand(c) == [];
    var p := Screen.Picture(n, c.decoded[j]);
    DecodedIsPicture(c.decoded, j);
    assert p in multiset(Display.Pictures(c.decoded));
    assert multiset(Display.InHand(c)) == multiset{};
    assert p in multiset(Screen.PaintedIn(c.screen.log));
    var i := PaintedSomewhere(c.screen.log, p);
  }

  lemma {:induction false} DecodedIsPicture(decoded: seq<VideoClient.Decode>, j: nat)
    requires j < |decoded| && decoded[j].ok
    ensures Screen.Picture(decoded[j].frame, decoded[j]) in Display.Pictures(decoded)
  {
    if j < |decoded| - 1 {
      DecodedIsPicture(decoded[..|decoded| - 1], j);
    }
  }

  lemma {:induction false} PaintedSomewhere(log: seq<Screen.Event<VideoClient.Decode>>, p: Screen.Picture<VideoClient.Decode>) returns (i: nat)
    requires p in Screen.PaintedIn(log)
    ensures i < |log| && log[i] == Screen.Painted(p)
  {
    if log[|log| - 1] == Screen.Painted(p) {
      i := |log| - 1;
    } else {
      i := PaintedSomewhere(log[..|log| - 1], p);
    }
  }
}

/**
  The sender goes on: when it can step, what it puts in flight over any run, and
  that it can always send the whole stream.
 */
module HostProgress {
  import opened Packets
  import opened Sequencing
  import opened HostPacketManager
  import opened Transport

  predicate SenderStep(step: Step) {
    step.Send? || step.Save? || step.NextFrame?
  }

  /** The sender stands still exactly when it is past the last frame. */
  lemma SenderCanStepIff(s: Session, t: State)
    requires Inv(s, t)
    ensures (exists step :: SenderStep(step) && Enabled(s, t, step)) <==> t.sender != AtPacket(|s.frames|, 0)
  {
    if t.sender != AtPacket(|s.frames|, 0) {
      var step := SenderCanStep(s, t);
    }
  }

  lemma SenderCanStep(s: Session, t: State) returns (step: Step)
    requires Inv(s, t) && t.sender != AtPacket(|s.frames|, 0)
    ensures SenderStep(step) && Enabled(s, t, step)
  {
    hide MakePacket, PacketCount, Session.PacketOf, NetworkOk, RecentOk;
    if t.sender.Unsaved? {
      step := Save;
    } else if t.sender.index == s.Count(t.sender.frame) {
      step := NextFrame;
    } else {
      step := Send;
    }
  }

  /** The packets that the run's sends put in flight, in order. */
  ghost function SentBy(s: Session, t: State, steps: seq<Step>): seq<Packet>
    requires s.config.Ok() && Runs(s, t, steps)
    decreases steps
  {
    if steps == [] then []
    else
      SentNow(s, t, steps[0]) + SentBy(s, Apply(s, t, steps[0]), steps[1..])
  }

  /** The stretch of the stream with the numbers from first up to last. */
  function Stretch(s: Session, first: nat, last: nat): (pkts: seq<Packet>)
    requires s.Ok() && first <= last <= s.Total()
    ensures |pkts| == last - first
  {
    seq(last - first, j requires 0 <= j < last - first => s.PacketOf(first + j))
  }

  /** A send puts the next packet of the stream in flight, once; no other step of the sender touches the network. */
  lemma SendIsNext(s: Session, t: State, step: Step)
    requires Inv(s, t) && Enabled(s, t, step)
    ensures var u := Apply(s, t, step);
            && (step.Send? ==>
                  && t.sequenceNumber < s.Total() && u.sequenceNumber == t.sequenceNumber + 1
                  && u.sender.Unsaved? && u.sender.pkt == s.PacketOf(t.sequenceNumber)
                  && u.toClient == t.toClient + multiset{s.PacketOf(t.sequenceNumber)})
            && (!step.Send? ==> u.sequenceNumber == t.sequenceNumber)
            && (step.Save? || step.NextFrame? ==> u.toClient == t.toClient)
            && (SenderStep(step) ==> u.toHost == t.toHost && u.received == t.received && u.dropped == t.dropped)
  {
    hide MakePacket, PacketCount, InOrder, Session.PacketOf, NetworkOk, RecentOk;
    if step.Send? {
      StepKeepsInv(s, t, step);
      SendCounts(s, t);
    }
  }

  lemma SendCounts(s: Session, t: State)
    requires Inv(s, t) && Enabled(s, t, Send)
    ensures Apply(s, t, Send).sequenceNumber == t.sequenceNumber + 1 == SentCount(s, t) + 1 <= s.Total()
    ensures Apply(s, t, Send).sender.Unsaved? && Apply(s, t, Send).sender.pkt == s.PacketOf(t.sequenceNumber)
  {
    hide MakePacket, PacketCount, NetworkOk, RecentOk, Session.PacketOf, Session.PacketAt;
    NumberOfPacket(s, t.sender.frame, t.sender.index);
    SendKeepsInv(s, t);
  }

  /** What the step adds to the packets sent. */
  ghost function SentNow(s: Session, t: State, step: Step): seq<Packet>
    requires s.config.Ok() && Enabled(s, t, step)
  {
    if step.Send? then [Apply(s, t, step).sender.pkt] else []
  }

  lemma SendNumbers(s: Session, t: State, step: Step)
    requires Inv(s, t) && Enabled(s, t, step)
    ensures Inv(s, Apply(s, t, step)) && s.Ok()
    ensures var (a, b) := (t.sequenceNumber, Apply(s, t, step).sequenceNumber);
            a <= b <= s.Total() && SentNow(s, t, step) == Stretch(s, a, b)
  {
    hide Session.PacketOf, Inv, Enabled, Apply;
    CounterWithin(s, t);
    StepKeepsInv(s, t, step);
    SendIsNext(s, t, step);
    CounterWithin(s, Apply(s, t, step));
  }

  /** Over every run: what has been sent is the stream up to the counter, each packet once, in order. */
  lemma {:induction false} RunSends(s: Session, t: State, steps: seq<Step>)
    requires Inv(s, t) && Runs(s, t, steps)
    ensures var u := After(s, t, steps);
            && t.sequenceNumber <= u.sequenceNumber <= s.Total()
            && SentBy(s, t, steps) == Stretch(s, t.sequenceNumber, u.sequenceNumber)
    decreases steps
  {
    CounterWithin(s, t);
    hide Inv, Enabled, Apply, Session.PacketOf, Stretch, SentNow;
    if steps == [] {
      NoStretch(s, t.sequenceNumber);
    } else {
      var u := Apply(s, t, steps[0]);
      SendNumbers(s, t, steps[0]);
      RunSends(s, u, steps[1..]);
      StretchesJoin(s, t.sequenceNumber, u.sequenceNumber, After(s, t, steps).sequenceNumber);
    }
  }

  lemma NoStretch(s: Session, a: nat)
    requires s.Ok() && a <= s.Total()
    ensures Stretch(s, a, a) == []
  {
  }

  lemma StretchesJoin(s: Session, a: nat, b: nat, c: nat)
    requires s.Ok() && a <= b <= c <= s.Total()
    ensures Stretch(s, a, c) == Stretch(s, a, b) + Stretch(s, b, c)
  {
    hide Session.PacketOf;
  }

  lemma CounterWithin(s: Session, t: State)
    requires Inv(s, t)
    ensures s.Ok() && t.sequenceNumber <= s.Total()
  {
  }

  /** What the sender still has to do. */
  ghost function Remaining(s: Session, t: State): nat
    requires Inv(s, t)
  {
    CounterWithin(s, t);
    2 * (s.Total() - t.sequenceNumber) + (if t.sender.Unsaved? then 1 else 0) + (|s.frames| - t.sender.frame)
  }

  /** From t to u the sender has put the rest of the stream in flight, each packet once, in order, and is at its end. */
  ghost predicate SentRest(s: Session, t: State, u: State, sent: seq<Packet>) {
    && Inv(s, t) && Inv(s, u)
    && u.sender == AtPacket(|s.frames|, 0) && SentCount(s, u) == s.Total() == u.sequenceNumber
    && t.sequenceNumber <= s.Total() && sent == Stretch(s, t.sequenceNumber, s.Total())
    && u.toClient == t.toClient + multiset(sent)
    && u.toHost == t.toHost && u.received == t.received && u.dropped == t.dropped
  }

  /** The sender alone can always bring the stream to its end. */
  lemma {:induction false} CanSendAll(s: Session, t: State) returns (steps: seq<Step>)
    requires Inv(s, t)
    ensures Runs(s, t, steps) && forall j :: 0 <= j < |steps| ==> SenderStep(steps[j])
    ensures SentRest(s, t, After(s, t, steps), SentBy(s, t, steps))
    decreases Remaining(s, t)
  {
    hide Inv, Enabled, Apply, Remaining, SentNow, SentRest, Runs, After, SentBy;
    CounterWithin(s, t);
    if t.sender == AtPacket(|s.frames|, 0) {
      steps := [];
      EndOfStream(s, t);
    } else {
      var step := SenderCanStep(s, t);
      SenderStepsOn(s, t, step);
      var rest := CanSendAll(s, Apply(s, t, step));
      steps := [step] + rest;
      Prepend(s, t, step, rest);
      SentRestEarlier(s, t, step, After(s, t, steps), SentBy(s, Apply(s, t, step), rest));
    }
  }

  lemma SentRestEarlier(s: Session, t: State, step: Step, u: State, rest: seq<Packet>)
    requires Inv(s, t) && Enabled(s, t, step) && SenderStep(step) && s.config.Ok() && SentRest(s, Apply(s, t, step), u, rest)
    ensures SentRest(s, t, u, SentNow(s, t, step) + rest)
  {
    hide Inv, Enabled, Apply, SentNow, Stretch, SentCount;
    SentFlies(s, t, step);
    SendNumbers(s, t, step);
    StretchesJoin(s, t.sequenceNumber, Apply(s, t, step).sequenceNumber, s.Total());
  }

  lemma Prepend(s: Session, t: State, step: Step, rest: seq<Step>)
    requires s.config.Ok() && Enabled(s, t, step) && Runs(s, Apply(s, t, step), rest)
    ensures Runs(s, t, [step] + rest) && After(s, t, [step] + rest) == After(s, Apply(s, t, step), rest)
    ensures SentBy(s, t, [step] + rest) == SentNow(s, t, step) + SentBy(s, Apply(s, t, step), rest)
  {
    hide Enabled, Apply, SentNow;
    assert ([step] + rest)[1..] == rest;
  }

  lemma SentFlies(s: Session, t: State, step: Step)
    requires Inv(s, t) && Enabled(s, t, step) && SenderStep(step)
    ensures var u := Apply(s, t, step);
            && u.toClient == t.toClient + multiset(SentNow(s, t, step))
            && u.toHost == t.toHost && u.received == t.received && u.dropped == t.dropped
  {
    hide Inv, Enabled, Apply, Session.PacketOf;
    SendIsNext(s, t, step);
  }

  lemma EndOfStream(s: Session, t: State)
    requires Inv(s, t) && s.config.Ok() && t.sender == AtPacket(|s.frames|, 0)
    ensures Runs(s, t, []) && SentRest(s, t, After(s, t, []), SentBy(s, t, []))
  {
    hide Session.PacketOf, PacketCount, NetworkOk, RecentOk;
  }

  lemma SenderStepsOn(s: Session, t: State, step: Step)
    requires Inv(s, t) && Enabled(s, t, step) && SenderStep(step)
    ensures Inv(s, Apply(s, t, step)) && Remaining(s, Apply(s, t, step)) < Remaining(s, t)
  {
    hide MakePacket, PacketCount, Session.PacketOf, NetworkOk, RecentOk;
    StepKeepsInv(s, t, step);
    SendIsNext(s, t, step);
  }
}

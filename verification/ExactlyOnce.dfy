/**
  Where every datagram read from the socket goes. The packets are absorbed in
  the order they were read; what was delivered for a frame is what was erased
  with its former buffers followed by what its present buffer holds. So a
  datagram read once contributes to one decode at most.
 */
module ExactlyOnce {
  import opened Words
  import opened Packets
  import opened Sequencing
  import opened Arithmetic
  import opened Reassembly
  import opened VideoClient
  import SQ = SemaphoreQueue
  import Screen

  /** The packets read and not yet absorbed, oldest first. */
  function Pipeline(st: State): seq<Packet> {
    Popped(st) + st.packets.items + Unpushed(st)
  }

  function Popped(st: State): seq<Packet> {
    if st.consumer.HasPacket? then [st.consumer.pkt] else []
  }

  function Unpushed(st: State): seq<Packet> {
    if st.receiver.Acked? || st.receiver.ReceiverLocked? then [st.receiver.got] else []
  }

  /** The offsets of frame n among the packets, in order. */
  function OffsetsIn(pkts: seq<Packet>, n: nat): seq<nat> {
    if pkts == [] then []
    else
      var before, last := OffsetsIn(pkts[..|pkts| - 1], n), pkts[|pkts| - 1];
      if last.kind == PACKET_TYPE_STREAM && last.frameNumber == n then before + [last.offset] else before
  }

  /** What was delivered into the erased buffers of frame n. */
  function ErasedIn(erased: seq<(nat, seq<nat>)>, n: nat): seq<nat> {
    if erased == [] then []
    else
      var before, last := ErasedIn(erased[..|erased| - 1], n), erased[|erased| - 1];
      if last.0 == n then before + last.1 else before
  }

  /** Nothing read is lost or overtaken on its way to the buffers. */
  predicate PipelineOk(st: State) {
    st.read == st.absorbed + Pipeline(st)
  }

  /** Every delivery for a frame is in one buffer of that frame, erased or present. */
  ghost predicate LivesTraced(st: State) {
    forall n :: OffsetsIn(st.absorbed, n) == ErasedIn(st.erased, n) + Lookup(st.active, n).offsets
  }

  predicate Held(st: State) {
    st.decoder.Decoded? || st.decoder.Erasing?
  }

  /** Each decode is of a buffer of its own: the one erased next after it, or the one about to be. */
  predicate DecodesTraced(st: State) {
    && |st.erased| + Units(Held(st)) == |st.decoded|
    && (forall j :: 0 <= j < |st.erased| ==>
          st.erased[j].0 == st.decoded[j].frame && st.decoded[j].offsets <= st.erased[j].1)
    && (Held(st) ==>
          && st.decoded[|st.erased|].frame == st.decoder.number
          && st.decoded[|st.erased|].offsets <= Lookup(st.active, st.decoder.number).offsets)
  }

  predicate ReadGenuine(s: Session, st: State)
    requires s.config.Ok()
  {
    forall j :: 0 <= j < |st.read| ==> s.Genuine(st.read[j])
  }

  ghost predicate Traced(s: Session, st: State)
    requires s.config.Ok()
  {
    PipelineOk(st) && LivesTraced(st) && DecodesTraced(st) && ReadGenuine(s, st)
  }

  lemma InitTraced(s: Session)
    requires s.config.Ok()
    ensures Traced(s, Init())
  {
  }

  /** A step within the pipeline moves packets along without changing their order. */
  lemma StepWithinPipeline(c: Config, st: State, step: Step)
    requires Enabled(c, st, step) && !step.Receive? && !step.AbsorbPacket?
    ensures var u := Apply(c, st, step);
            Pipeline(u) == Pipeline(st) && u.read == st.read && u.absorbed == st.absorbed
  {
    hide SQ.Queue.Dequeue, Acceptable, Absorbed, Lookup, Screen.CanPaint, Screen.Paint, Screen.Tick, Screen.PushPicture;
    match step
    case EnqueuePacket =>
      assert Popped(st) + st.packets.items + [st.receiver.got] == Popped(st) + (st.packets.items + [st.receiver.got]) + [];
    case DequeuePacket =>
      SQ.Dequeued(st.packets);
    case _ =>
  }

  lemma StepKeepsPipeline(c: Config, st: State, step: Step)
    requires PipelineOk(st) && Enabled(c, st, step)
    ensures PipelineOk(Apply(c, st, step))
  {
    hide SQ.Queue.Dequeue, Acceptable, Absorb, Complete, Screen.CanPaint;
    var u := Apply(c, st, step);
    if step.Receive? {
      assert Pipeline(u) == Pipeline(st) + [step.pkt];
    } else if step.AbsorbPacket? {
      assert Pipeline(st) == [st.consumer.pkt] + Pipeline(u);
      assert u.absorbed + Pipeline(u) == st.absorbed + ([st.consumer.pkt] + Pipeline(u));
    } else {
      StepWithinPipeline(c, st, step);
    }
  }

  lemma AbsorbKeepsLivesTraced(c: Config, st: State)
    requires LivesTraced(st) && Enabled(c, st, AbsorbPacket)
    ensures LivesTraced(Apply(c, st, AbsorbPacket))
  {
    hide SQ.Queue.Dequeue, Acceptable, Absorb, Complete;
    var u, pkt := Apply(c, st, AbsorbPacket), st.consumer.pkt;
    assert u.absorbed[..|st.absorbed|] == st.absorbed;
    forall n: nat
      ensures OffsetsIn(u.absorbed, n) == ErasedIn(u.erased, n) + Lookup(u.active, n).offsets
    {
      assert OffsetsIn(st.absorbed, n) == ErasedIn(st.erased, n) + Lookup(st.active, n).offsets;
    }
  }

  lemma EraseKeepsLivesTraced(c: Config, st: State)
    requires LivesTraced(st) && Enabled(c, st, EraseFrame)
    ensures LivesTraced(Apply(c, st, EraseFrame))
  {
    hide OffsetsIn;
    var u := Apply(c, st, EraseFrame);
    assert u.erased[..|st.erased|] == st.erased;
    forall n: nat
      ensures OffsetsIn(u.absorbed, n) == ErasedIn(u.erased, n) + Lookup(u.active, n).offsets
    {
      assert OffsetsIn(st.absorbed, n) == ErasedIn(st.erased, n) + Lookup(st.active, n).offsets;
    }
  }

  lemma StepKeepsLivesTraced(c: Config, st: State, step: Step)
    requires LivesTraced(st) && Enabled(c, st, step)
    ensures LivesTraced(Apply(c, st, step))
  {
    hide SQ.Queue.Dequeue, Acceptable, Absorb, OffsetsIn, ErasedIn;
    if step.AbsorbPacket? {
      AbsorbKeepsLivesTraced(c, st);
    } else if step.EraseFrame? {
      EraseKeepsLivesTraced(c, st);
    } else {
      var u := Apply(c, st, step);
      forall n: nat
        ensures OffsetsIn(u.absorbed, n) == ErasedIn(u.erased, n) + Lookup(u.active, n).offsets
      {
        assert OffsetsIn(st.absorbed, n) == ErasedIn(st.erased, n) + Lookup(st.active, n).offsets;
      }
    }
  }

  lemma StepKeepsDecodesTraced(c: Config, st: State, step: Step)
    requires DecodesTraced(st) && Enabled(c, st, step)
    ensures DecodesTraced(Apply(c, st, step))
  {
    hide SQ.Queue.Dequeue, Acceptable, Absorb, Complete, Screen.CanPaint, Screen.Paint, Screen.Tick, Screen.PushPicture;
  }

  lemma StepKeepsTraced(s: Session, st: State, step: Step)
    requires s.config.Ok() && Traced(s, st) && Enabled(s.config, st, step)
    requires step.Receive? ==> s.Genuine(step.pkt)
    ensures Traced(s, Apply(s.config, st, step))
  {
    hide Enabled, Apply, PipelineOk, LivesTraced, DecodesTraced, ReadGenuine;
    StepKeepsPipeline(s.config, st, step);
    StepKeepsLivesTraced(s.config, st, step);
    StepKeepsDecodesTraced(s.config, st, step);
    StepKeepsReadGenuine(s, st, step);
  }

  lemma StepKeepsReadGenuine(s: Session, st: State, step: Step)
    requires s.config.Ok() && ReadGenuine(s, st) && Enabled(s.config, st, step)
    requires step.Receive? ==> s.Genuine(step.pkt)
    ensures ReadGenuine(s, Apply(s.config, st, step))
  {
    hide SQ.Queue.Dequeue, Acceptable, Absorb, Complete, Lookup, Session.Genuine, Screen.CanPaint;
  }

  // ----- The deliveries of one frame -----

  lemma {:induction false} OffsetsInPrefix(pkts: seq<Packet>, k: nat, n: nat)
    requires k <= |pkts|
    ensures OffsetsIn(pkts[..k], n) <= OffsetsIn(pkts, n)
  {
    if k < |pkts| {
      OffsetsInPrefix(pkts[..|pkts| - 1], k, n);
      assert pkts[..|pkts| - 1][..k] == pkts[..k];
    } else {
      assert pkts[..k] == pkts;
    }
  }

  /** The offsets of a frame among packets of the host are those of its packets there. */
  lemma {:induction false} OffsetsOfPackets(s: Session, pkts: seq<Packet>, n: nat)
    requires s.Ok() && forall j :: 0 <= j < |pkts| ==> s.Genuine(pkts[j])
    ensures forall o: nat :: o in OffsetsIn(pkts, n) <==> s.Valid(n, o) && s.PacketAt(n, o) in pkts
  {
    if pkts != [] {
      var front, last := pkts[..|pkts| - 1], pkts[|pkts| - 1];
      OffsetsOfPackets(s, front, n);
      GenuineShape(s, last.frameNumber, last.offset);
      hide MakePacket, PacketCount, Session.PacketAt, ChunkSize;
      assert pkts == front + [last];
      forall o: nat
        ensures o in OffsetsIn(pkts, n) <==> s.Valid(n, o) && s.PacketAt(n, o) in pkts
      {
        if s.Valid(n, o) {
          GenuineShape(s, n, o);
        }
      }
    }
  }

  lemma {:induction false} DistinctPacketsDistinctOffsets(s: Session, pkts: seq<Packet>, n: nat)
    requires s.Ok() && NoDup(pkts) && forall j :: 0 <= j < |pkts| ==> s.Genuine(pkts[j])
    ensures NoDup(OffsetsIn(pkts, n))
  {
    hide MakePacket, PacketCount, Session.PacketAt;
    if pkts != [] {
      var front, last := pkts[..|pkts| - 1], pkts[|pkts| - 1];
      DistinctPacketsDistinctOffsets(s, front, n);
      OffsetsOfPackets(s, front, n);
      assert pkts == front + [last];
      assert last !in front;
    }
  }

  /** What was delivered for a frame is the first part of what was read of it. */
  lemma DeliveredWasRead(st: State, n: nat)
    requires PipelineOk(st) && LivesTraced(st)
    ensures ErasedIn(st.erased, n) + Lookup(st.active, n).offsets == OffsetsIn(st.absorbed, n) <= OffsetsIn(st.read, n)
  {
    hide ErasedIn, OffsetsIn, Pipeline;
    assert st.read[..|st.absorbed|] == st.absorbed;
    OffsetsInPrefix(st.read, |st.absorbed|, n);
  }

  // ----- No packet of a frame read twice -----

  /** With all deliveries of a frame distinct, one erased buffer shares none with another nor with what comes after. */
  lemma {:induction false} ErasedApart(erased: seq<(nat, seq<nat>)>, n: nat, rest: seq<nat>, j: nat, o: nat)
    requires NoDup(ErasedIn(erased, n) + rest)
    requires j < |erased| && erased[j].0 == n && o in erased[j].1
    ensures NoDup(erased[j].1)
    ensures o in ErasedIn(erased, n) && o !in rest
    ensures forall k :: j < k < |erased| && erased[k].0 == n ==> o !in erased[k].1
  {
    var front, last := erased[..|erased| - 1], erased[|erased| - 1];
    if last.0 == n {
      assert ErasedIn(front, n) + (last.1 + rest) == ErasedIn(erased, n) + rest;
      if j < |front| {
        ErasedApart(front, n, last.1 + rest, j, o);
        assert o !in last.1;
      } else {
        var i :| 0 <= i < |last.1| && last.1[i] == o;
        SegmentApart(ErasedIn(front, n), last.1, rest, i);
      }
    } else {
      ErasedApart(front, n, rest, j, o);
    }
  }

  lemma SegmentApart(a: seq<nat>, b: seq<nat>, c: seq<nat>, i: nat)
    requires NoDup(a + b + c) && i < |b|
    ensures NoDup(b) && b[i] in a + b && b[i] !in c
  {
    var all := a + b + c;
    assert forall x :: 0 <= x < |b| ==> all[|a| + x] == b[x];
    assert forall x :: 0 <= x < |c| ==> all[|a| + |b| + x] == c[x];
    assert (a + b)[|a| + i] == b[i];
  }

  /** What was delivered into the buffer of the j-th decode, up to its erase or up to now. */
  function BufferOf(st: State, j: nat): seq<nat>
    requires DecodesTraced(st) && j < |st.decoded|
  {
    if j < |st.erased| then st.erased[j].1 else Lookup(st.active, st.decoded[j].frame).offsets
  }

  /** The buffer of a decode received nothing twice, and shares no offset with the buffer of a later decode of its frame. */
  lemma BuffersApart(s: Session, st: State, j: nat, o: nat)
    requires s.config.Ok() && Traced(s, st)
    requires j < |st.decoded| && NoDup(OffsetsIn(st.read, st.decoded[j].frame)) && o in BufferOf(st, j)
    ensures NoDup(BufferOf(st, j))
    ensures forall k :: j < k < |st.decoded| && st.decoded[k].frame == st.decoded[j].frame ==> o !in BufferOf(st, k)
  {
    hide Session.Genuine, ErasedIn, OffsetsIn;
    var n := st.decoded[j].frame;
    var rest := Lookup(st.active, n).offsets;
    DeliveredWasRead(st, n);
    assert NoDup(ErasedIn(st.erased, n) + rest);
    if j < |st.erased| {
      ErasedApart(st.erased, n, rest, j, o);
    } else {
      var i :| 0 <= i < |rest| && rest[i] == o;
      SegmentApart(ErasedIn(st.erased, n), rest, [], i);
      assert ErasedIn(st.erased, n) + rest + [] == ErasedIn(st.erased, n) + rest;
    }
  }

  /** A history without repetitions completes when all chunks have arrived, and not before. */
  lemma DistinctCompletesIff(s: Session, n: nat, offs: seq<nat>)
    requires s.Ok() && Offsets(s, n, offs) && NoDup(offs)
    ensures HasCompleted(s, n, offs) <==> n < |s.frames| && s.Count(n) > 0 && AllArrived(s, n, offs)
  {
    hide MakePacket, PacketCount, Session.PacketAt, Replay, Complete, Bytes;
    if HasCompleted(s, n, offs) {
      var k: nat :| CompletedAt(s, n, offs, k);
      assert s.Valid(n, offs[0]) && NoDup(offs[..k]);
      CompletionIsExact(s, n, offs[..k]);
      assert forall i: nat :: i in offs[..k] ==> i in offs;
    }
    if n < |s.frames| && s.Count(n) > 0 && AllArrived(s, n, offs) {
      assert 0 in offs;
      AllArrivedOnceCompletes(s, n, offs);
      assert offs[..|offs|] == offs;
      assert CompletedAt(s, n, offs, |offs|);
    }
  }

  lemma OneDecode(s: Session, st: State, j: nat)
    requires j < |st.decoded| && Inv(s, st, st.decoded[j].frame) && Traced(s, st) && NoDup(OffsetsIn(st.read, st.decoded[j].frame))
    ensures var d := st.decoded[j]; d.frame < |s.frames| && d.bytes == s.frames[d.frame]
    ensures 0 in BufferOf(st, j)
  {
    hide MakePacket, PacketCount, Session.PacketAt, Session.Genuine, ErasedIn, OffsetsIn, Replay, Complete, Pending;
    var d := st.decoded[j];
    assert DecodeOk(s, d) && d.offsets <= BufferOf(st, j) && d.offsets != [];
    BuffersApart(s, st, j, d.offsets[0]);
    DistinctCompletesIff(s, d.frame, d.offsets);
    AllArrivedIsFrame(s, d.frame, d.offsets);
    assert 0 in d.offsets;
  }

  /**
    If the client reads no packet of frame n twice then every picture it decodes
    under this number is the host's frame, and it decodes it once at most.
   */
  lemma DecodedOnceAndFaithfully(s: Session, st: State, n: nat)
    requires Inv(s, st, n) && Traced(s, st) && NoDup(OffsetsIn(st.read, n))
    ensures forall j :: 0 <= j < |st.decoded| && st.decoded[j].frame == n ==> n < |s.frames| && st.decoded[j].bytes == s.frames[n]
    ensures forall j, k :: 0 <= j < k < |st.decoded| ==> !(st.decoded[j].frame == n && st.decoded[k].frame == n)
  {
    hide FlowOk, FrameOk, OffsetsIn;
    FlowIsOk(s, st);
    forall j | 0 <= j < |st.decoded| && st.decoded[j].frame == n
      ensures n < |s.frames| && st.decoded[j].bytes == s.frames[n] && 0 in BufferOf(st, j)
    {
      OneDecode(s, st, j);
    }
    forall j, k | 0 <= j < k < |st.decoded|
      ensures !(st.decoded[j].frame == n && st.decoded[k].frame == n)
    {
      if st.decoded[j].frame == n && st.decoded[k].frame == n {
        BuffersApart(s, st, j, 0);
      }
    }
  }

  /** Nor can a buffer of it receive more than the frame, so none completes twice. */
  lemma DistinctReadsCompleteOnce(s: Session, st: State, n: nat)
    requires s.Ok() && Traced(s, st) && NoDup(OffsetsIn(st.read, n))
    ensures n in st.active && Offsets(s, n, st.active[n].offsets) && n < |s.frames| ==> Bytes(s, n, st.active[n].offsets) <= |s.frames[n]|
    ensures NoSecondCompletion(s, st, n)
  {
    hide MakePacket, PacketCount, Session.Genuine, OffsetsIn, ErasedIn, CompletesOnce, Replay, Bytes;
    DeliveredWasRead(st, n);
    if n in st.active && Offsets(s, n, st.active[n].offsets) {
      var (gone, offs) := (ErasedIn(st.erased, n), st.active[n].offsets);
      assert forall i :: 0 <= i < |offs| ==> (gone + offs)[|gone| + i] == offs[i];
      if offs != [] {
        assert s.Valid(n, offs[0]);
        BytesOfDistinct(s, n, offs);
      } else {
        NoBytes(s, n);
      }
      UnwrappedCompletesOnce(s, n, offs);
    }
  }

  lemma NoBytes(s: Session, n: nat)
    requires s.Ok()
    ensures Bytes(s, n, []) == 0
  {
  }

  lemma BytesOfDistinct(s: Session, n: nat, offs: seq<nat>)
    requires s.Ok() && n < |s.frames| && Offsets(s, n, offs) && NoDup(offs)
    ensures Bytes(s, n, offs) <= |s.frames[n]| < DWORD_LIMIT
  {
    hide MakePacket, PacketCount, Reassembly.Held, Bytes;
    BytesConserved(s, n, offs);
    HeldAll(s, n, offs);
  }

  /** Nor while fewer than 2^32 / p packets of it were read, repeated or not. */
  lemma FewReadsCompleteOnce(s: Session, st: State, n: nat)
    requires s.Ok() && Traced(s, st) && Times(|OffsetsIn(st.read, n)|, s.P()) < DWORD_LIMIT
    ensures NoSecondCompletion(s, st, n)
  {
    hide MakePacket, PacketCount, Session.Genuine, OffsetsIn, ErasedIn, CompletesOnce, Replay, Bytes, Times;
    DeliveredWasRead(st, n);
    if n in st.active && Offsets(s, n, st.active[n].offsets) {
      var offs := st.active[n].offsets;
      BytesAtMost(s, n, offs);
      MulMono(|offs|, |OffsetsIn(st.read, n)|, s.P());
      UnwrappedCompletesOnce(s, n, offs);
    }
  }

  // ----- Which frames are decoded at all -----

  ghost predicate DecodedIn(st: State, n: nat) {
    exists j :: 0 <= j < |st.decoded| && st.decoded[j].frame == n
  }

  /** Frame n has come to be pending, exactly if some first part of what was delivered of it passes the test. */
  ghost predicate QueueTraced(s: Session, st: State, n: nat)
    requires s.Ok()
  {
    Occurrences(st, n) > 0 || DecodedIn(st, n) <==> HasCompleted(s, n, OffsetsIn(st.absorbed, n))
  }

  lemma InitQueueTraced(s: Session, n: nat)
    requires s.Ok()
    ensures QueueTraced(s, Init(), n)
  {
    NothingCompletesNothing(s, n);
  }

  /** Until frame n is decoded, its buffer holds all that was delivered of it. */
  lemma UndecodedHoldsAll(st: State, n: nat)
    requires LivesTraced(st) && DecodesTraced(st) && !DecodedIn(st, n)
    ensures Lookup(st.active, n).offsets == OffsetsIn(st.absorbed, n)
  {
    hide OffsetsIn;
    NothingErased(st.erased, n);
    assert [] + Lookup(st.active, n).offsets == Lookup(st.active, n).offsets;
  }

  lemma {:induction false} NothingErased(erased: seq<(nat, seq<nat>)>, n: nat)
    requires forall j :: 0 <= j < |erased| ==> erased[j].0 != n
    ensures ErasedIn(erased, n) == []
  {
    if erased != [] {
      NothingErased(erased[..|erased| - 1], n);
    }
  }

  lemma OffsetsInNext(pkts: seq<Packet>, pkt: Packet, n: nat)
    ensures OffsetsIn(pkts + [pkt], n)
         == OffsetsIn(pkts, n) + if pkt.kind == PACKET_TYPE_STREAM && pkt.frameNumber == n then [pkt.offset] else []
  {
    assert (pkts + [pkt])[..|pkts|] == pkts;
  }

  lemma AbsorbKeepsQueueTraced(s: Session, st: State, n: nat)
    requires FlowOk(s, st) && Traced(s, st) && s.Ok() && QueueTraced(s, st, n) && Enabled(s.config, st, AbsorbPacket)
    ensures QueueTraced(s, Apply(s.config, st, AbsorbPacket), n)
  {
    AbsorbsOne(s.config, st);
    AbsorbedHistory(s, st);
    AbsorbPending(s.config, st);
    AbsorbedOffsets(s, st, n);
    hide FlowOk, Enabled, Apply, Complete, Replay, Offsets, Pending, OffsetsIn, CompletedAt, LifeOk, PipelineOk, LivesTraced, DecodesTraced, ReadGenuine;
    var (u, pkt) := (Apply(s.config, st, AbsorbPacket), st.consumer.pkt);
    OffsetsInNext(st.absorbed, pkt, n);
    if pkt.frameNumber == n {
      var (offs, o) := (OffsetsIn(st.absorbed, n), pkt.offset);
      if HasCompleted(s, n, offs) {
        CompletedStays(s, n, offs, offs + [o]);
      } else {
        UndecodedHoldsAll(st, n);
        FirstCompletion(s, n, offs, o);
      }
    } else {
      assert OffsetsIn(st.absorbed, n) + [] == OffsetsIn(st.absorbed, n);
    }
  }

  lemma AbsorbsOne(c: Config, st: State)
    requires Enabled(c, st, AbsorbPacket)
    ensures Apply(c, st, AbsorbPacket).absorbed == st.absorbed + [st.consumer.pkt]
  {
    hide Acceptable, Absorb, Complete, Lookup;
  }

  /** What was delivered of a frame, with what is delivered next, is made of its offsets. */
  lemma AbsorbedOffsets(s: Session, st: State, n: nat)
    requires s.Ok() && FlowOk(s, st) && Traced(s, st) && st.consumer.HasPacket?
    ensures Offsets(s, n, OffsetsIn(st.absorbed, n))
    ensures st.consumer.pkt.frameNumber == n ==> Offsets(s, n, OffsetsIn(st.absorbed, n) + [st.consumer.pkt.offset])
  {
    hide MakePacket, PacketCount, Session.PacketAt, LocksOk, ReplayOk, DecodeFlowOk, LivesTraced, DecodesTraced, OffsetsIn, Pipeline;
    assert forall i :: 0 <= i < |st.absorbed| ==> st.absorbed[i] == st.read[i];
    OffsetsOfPackets(s, st.absorbed, n);
  }

  /** A history that has not completed completes with the next delivery exactly if the test succeeds there. */
  lemma FirstCompletion(s: Session, n: nat, offs: seq<nat>, o: nat)
    requires s.Ok() && Offsets(s, n, offs) && Offsets(s, n, offs + [o]) && !HasCompleted(s, n, offs) && n < |s.frames|
    ensures HasCompleted(s, n, offs + [o]) <==> Complete(Replay(s, n, offs + [o]))
  {
    hide Replay, Complete, Offsets, CompletedAt;
    CompletedBefore(s, n, offs, o, |offs| + 1);
    if HasCompleted(s, n, offs + [o]) {
      var k: nat :| CompletedAt(s, n, offs + [o], k);
      CompletedWithin(s, n, offs + [o], k);
      CompletedBefore(s, n, offs, o, k);
    }
  }

  lemma DecodeKeepsQueueTraced(s: Session, st: State, ok: bool, n: nat)
    requires s.Ok() && QueueTraced(s, st, n) && Enabled(s.config, st, DecodeFrame(ok))
    ensures QueueTraced(s, Apply(s.config, st, DecodeFrame(ok)), n)
  {
    hide HasCompleted, Pending, OffsetsIn, Absorbed, Acceptable;
    OthersKeepPending(s.config, st, DecodeFrame(ok));
    DecoderHoldsFirst(st);
    var u := Apply(s.config, st, DecodeFrame(ok));
    assert u.decoded[|st.decoded|].frame == st.decoder.number;
    assert forall j :: 0 <= j < |st.decoded| ==> u.decoded[j] == st.decoded[j];
  }

  lemma EraseKeepsQueueTraced(s: Session, st: State, n: nat)
    requires s.Ok() && DecodesTraced(st) && QueueTraced(s, st, n) && Enabled(s.config, st, EraseFrame)
    ensures QueueTraced(s, Apply(s.config, st, EraseFrame), n)
  {
    hide HasCompleted, Pending, OffsetsIn, Absorbed, Acceptable;
    ErasePending(s.config, st);
    assert multiset(Pending(st)) == multiset{st.decoder.number} + multiset(Pending(Apply(s.config, st, EraseFrame)));
    assert st.decoded[|st.erased|].frame == st.decoder.number;
  }

  lemma OthersKeepQueueTraced(s: Session, st: State, step: Step, n: nat)
    requires s.Ok() && QueueTraced(s, st, n) && Enabled(s.config, st, step)
    requires !step.AbsorbPacket? && !step.DecodeFrame? && !step.EraseFrame?
    ensures QueueTraced(s, Apply(s.config, st, step), n)
  {
    hide HasCompleted, Pending, OffsetsIn, Absorbed, Acceptable, SQ.Queue.Dequeue, Screen.CanPaint, Lookup;
    OthersKeepPending(s.config, st, step);
  }

  lemma StepKeepsQueueTraced(s: Session, st: State, step: Step, n: nat)
    requires s.Ok() && FlowOk(s, st) && Traced(s, st) && QueueTraced(s, st, n) && Enabled(s.config, st, step)
    ensures QueueTraced(s, Apply(s.config, st, step), n)
  {
    hide FlowOk, Enabled, Apply, QueueTraced, PipelineOk, LivesTraced, ReadGenuine;
    match step
    case AbsorbPacket => AbsorbKeepsQueueTraced(s, st, n);
    case DecodeFrame(ok) => DecodeKeepsQueueTraced(s, st, ok, n);
    case EraseFrame => EraseKeepsQueueTraced(s, st, n);
    case _ => OthersKeepQueueTraced(s, st, step, n);
  }

  /**
    A client with nothing left to do has decoded frame n exactly if some first
    part of the packets of n that it read passes the completion test.
   */
  lemma DecodedIffCompleted(s: Session, st: State, n: nat)
    requires s.Ok() && PipelineOk(st) && QueueTraced(s, st, n) && LocksOk(st) && Quiescent(st)
    ensures DecodedIn(st, n) <==> HasCompleted(s, n, OffsetsIn(st.read, n))
  {
    hide HasCompleted, OffsetsIn;
    assert Pipeline(st) == [] && st.read == st.absorbed;
    assert Pending(st) == [];
  }

  /** If it read no packet of n twice: exactly if it read all packets of n. */
  lemma DecodedIffAllRead(s: Session, st: State, n: nat)
    requires s.Ok() && Traced(s, st) && QueueTraced(s, st, n) && LocksOk(st) && Quiescent(st) && NoDup(OffsetsIn(st.read, n))
    ensures DecodedIn(st, n) <==> n < |s.frames| && s.Count(n) > 0 && forall i: nat :: i < s.Count(n) ==> s.PacketAt(n, i) in st.read
  {
    hide MakePacket, PacketCount, Session.PacketAt, HasCompleted, OffsetsIn, LivesTraced, DecodesTraced, QueueTraced;
    DecodedIffCompleted(s, st, n);
    OffsetsOfPackets(s, st.read, n);
    DistinctCompletesIff(s, n, OffsetsIn(st.read, n));
  }
}

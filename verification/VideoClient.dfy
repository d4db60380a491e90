/**
  The client's threads as a step machine (VideoClient/main.cpp): receiver,
  consumer, decoder, window and timer, with the queues' pushes and pops in
  their two halves and dataMutex explicit. One access to activeFrames, with the
  use made of the buffer it returns, is one step.
 */
module VideoClient {
  import opened Words
  import opened Arithmetic
  import opened Packets
  import opened Sequencing
  import opened Reassembly
  import SQ = SemaphoreQueue
  import Screen

  datatype Owner = Free | ByReceiver | ByConsumer

  datatype Receiver =
    | Listening
    | Acked(got: Packet)            // read and acknowledged, wants dataMutex
    | ReceiverLocked(got: Packet)
    | PacketEnqueued                // between the halves of packetQueue.Push
    | PacketReleased

  datatype Consumer =
    | Polling
    | SawPacket                     // isEmpty() was false, wants dataMutex
    | ConsumerLocked                // at the semaphore wait of packetQueue.Pop, holding dataMutex
    | PacketAdmitted                // between the halves of packetQueue.Pop
    | HasPacket(pkt: Packet)
    | FrameComplete(frame: nat)     // the completion test succeeded
    | FrameEnqueued                 // between the halves of frameNumQueue.Push
    | IterationDone

  datatype Decoder =
    | DecoderPolling
    | SawFrame
    | FrameAdmitted                 // between the halves of frameNumQueue.Pop
    | HasFrame(number: nat)
    | Decoded(number: nat, d: Decode)
    | Erasing(number: nat)

  /** One entry of activeFrames: its buffer, and the offsets delivered into it since it was created. */
  datatype Life = Life(buffer: Buffer, offsets: seq<nat>)

  /** One call of decodeImage: the frame number, the bytes passed, the history of their buffer, and whether a bitmap came back. */
  datatype Decode = Decode(frame: nat, bytes: seq<byte>, offsets: seq<nat>, ok: bool)

  datatype State = State(
    owner: Owner,
    receiver: Receiver,
    consumer: Consumer,
    decoder: Decoder,
    packets: SQ.Queue<Packet>,
    active: map<nat, Life>,
    frames: SQ.Queue<nat>,
    decoded: seq<Decode>,
    screen: Screen.State<Decode>,
    read: seq<Packet>,                  // history: the datagrams read from the socket
    absorbed: seq<Packet>,              // history: the packets the consumer is done with
    erased: seq<(nat, seq<nat>)>)       // history: the frame numbers erased, with what was delivered into their buffers

  datatype Step =
    | Receive(pkt: Packet)
    | LockForPush | EnqueuePacket | ReleasePacket | UnlockAfterPush
    | SeePacket | LockForPop | AdmitPacket | DequeuePacket | AbsorbPacket | EnqueueFrame | ReleaseFrame | UnlockAfterPop
    | SeeFrame | AdmitFrame | DequeueFrame | DecodeFrame(ok: bool) | ShowFrame | EraseFrame
    | Paint(p: Screen.Picture<Decode>)
    | Tick

  function Init(): State {
    State(Free, Listening, Polling, DecoderPolling, SQ.Queue([], 0, 0), map[], SQ.Queue([], 0, 0), [], Screen.Init(), [], [], [])
  }

  /** activeFrames[n], where operator[] inserts an empty buffer. */
  function Lookup(active: map<nat, Life>, n: nat): Life {
    if n in active then active[n] else Life(EMPTY, [])
  }

  ghost predicate Enabled(c: Config, st: State, step: Step) {
    match step
    case Receive(pkt) => st.receiver.Listening?
    case LockForPush => st.receiver.Acked? && st.owner == Free
    case EnqueuePacket => st.receiver.ReceiverLocked?
    case ReleasePacket => st.receiver.PacketEnqueued?
    case UnlockAfterPush => st.receiver.PacketReleased?
    case SeePacket => st.consumer.Polling? && st.packets.items != []
    case LockForPop => st.consumer.SawPacket? && st.owner == Free
    case AdmitPacket => st.consumer.ConsumerLocked? && st.packets.count > 0
    case DequeuePacket => st.consumer.PacketAdmitted? && st.packets.items != []
    case AbsorbPacket =>
      st.consumer.HasPacket? &&
      (st.consumer.pkt.kind == PACKET_TYPE_STREAM ==>
         Acceptable(c, Lookup(st.active, st.consumer.pkt.frameNumber).buffer, st.consumer.pkt))
    case EnqueueFrame => st.consumer.FrameComplete?
    case ReleaseFrame => st.consumer.FrameEnqueued?
    case UnlockAfterPop => st.consumer.IterationDone?
    case SeeFrame => st.decoder.DecoderPolling? && st.frames.items != []
    case AdmitFrame => st.decoder.SawFrame? && st.frames.count > 0
    case DequeueFrame => st.decoder.FrameAdmitted? && st.frames.items != []
    case DecodeFrame(ok) => st.decoder.HasFrame?
    case ShowFrame => st.decoder.Decoded?
    case EraseFrame => st.decoder.Erasing?
    case Paint(p) => Screen.CanPaint(st.screen, p)
    case Tick => true
  }

  function Absorbed(c: Config, st: State, pkt: Packet): State
    requires pkt.kind == PACKET_TYPE_STREAM ==> Acceptable(c, Lookup(st.active, pkt.frameNumber).buffer, pkt)
  {
    if pkt.kind != PACKET_TYPE_STREAM then st.(consumer := IterationDone, absorbed := st.absorbed + [pkt])
    else
      var life := Lookup(st.active, pkt.frameNumber);
      var b := Absorb(c, life.buffer, pkt);
      st.(active := st.active[pkt.frameNumber := Life(b, life.offsets + [pkt.offset])],
          consumer := if Complete(b) then FrameComplete(pkt.frameNumber) else IterationDone,
          absorbed := st.absorbed + [pkt])
  }

  function DecodedFrame(st: State, n: nat, ok: bool): State {
    var life := Lookup(st.active, n);
    var d := Decode(n, life.buffer.chunks, life.offsets, ok);
    st.(active := st.active[n := life], decoded := st.decoded + [d], decoder := Decoded(n, d))
  }

  function Apply(c: Config, st: State, step: Step): State
    requires Enabled(c, st, step)
  {
    match step
    case Receive(pkt) => st.(receiver := Acked(pkt), read := st.read + [pkt])
    case LockForPush => st.(receiver := ReceiverLocked(st.receiver.got), owner := ByReceiver)
    case EnqueuePacket => st.(receiver := PacketEnqueued, packets := st.packets.Enqueue(st.receiver.got))
    case ReleasePacket => st.(receiver := PacketReleased, packets := st.packets.Release(SQ.MAXINT))
    case UnlockAfterPush => st.(receiver := Listening, owner := Free)
    case SeePacket => st.(consumer := SawPacket)
    case LockForPop => st.(consumer := ConsumerLocked, owner := ByConsumer)
    case AdmitPacket => st.(consumer := PacketAdmitted, packets := st.packets.Wait())
    case DequeuePacket => st.(consumer := HasPacket(st.packets.items[0]), packets := st.packets.Dequeue())
    case AbsorbPacket => Absorbed(c, st, st.consumer.pkt)
    case EnqueueFrame => st.(consumer := FrameEnqueued, frames := st.frames.Enqueue(st.consumer.frame))
    case ReleaseFrame => st.(consumer := IterationDone, frames := st.frames.Release(SQ.MAXINT))
    case UnlockAfterPop => st.(consumer := Polling, owner := Free)
    case SeeFrame => st.(decoder := SawFrame)
    case AdmitFrame => st.(decoder := FrameAdmitted, frames := st.frames.Wait())
    case DequeueFrame => st.(decoder := HasFrame(st.frames.items[0]), frames := st.frames.Dequeue())
    case DecodeFrame(ok) => DecodedFrame(st, st.decoder.number, ok)
    case ShowFrame =>
      st.(decoder := Erasing(st.decoder.number),
          screen := if st.decoder.d.ok then Screen.PushPicture(st.screen, Screen.Picture(st.decoder.number, st.decoder.d))
                    else st.screen)
    case EraseFrame =>
      var n := st.decoder.number;
      st.(decoder := DecoderPolling, active := st.active - {n}, erased := st.erased + [(n, Lookup(st.active, n).offsets)])
    case Paint(p) => st.(screen := Screen.Paint(st.screen, p))
    case Tick => st.(screen := Screen.Tick(st.screen))
  }

  // ----- The invariant, part by part -----

  function Units(b: bool): nat {
    if b then 1 else 0
  }

  /** Who holds dataMutex, and what the semaphores count. */
  predicate LocksOk(st: State) {
    && (st.owner == ByReceiver <==> st.receiver.ReceiverLocked? || st.receiver.PacketEnqueued? || st.receiver.PacketReleased?)
    && (st.owner == ByConsumer <==> !st.consumer.Polling? && !st.consumer.SawPacket?)
    && st.packets.count + st.packets.failed + Units(st.receiver.PacketEnqueued?) + Units(st.consumer.PacketAdmitted?)
       == |st.packets.items|
    && (st.consumer.SawPacket? || st.consumer.ConsumerLocked? || st.consumer.PacketAdmitted? ==> st.packets.items != [])
    && st.frames.count + st.frames.failed + Units(st.consumer.FrameEnqueued?) + Units(st.decoder.FrameAdmitted?)
       == |st.frames.items|
    && (st.decoder.SawFrame? || st.decoder.FrameAdmitted? ==> st.frames.items != [])
  }

  /** Every packet between the socket and the buffers is one the host sent. */
  predicate PacketsGenuine(s: Session, st: State)
    requires s.config.Ok()
  {
    && (forall j :: 0 <= j < |st.packets.items| ==> s.Genuine(st.packets.items[j]))
    && (st.receiver.Acked? || st.receiver.ReceiverLocked? ==> s.Genuine(st.receiver.got))
    && (st.consumer.HasPacket? ==> s.Genuine(st.consumer.pkt))
  }

  /** A buffer is what its history of deliveries makes of an empty one. */
  ghost predicate ReplayOk(s: Session, n: nat, life: Life)
    requires s.Ok()
  {
    Offsets(s, n, life.offsets) && life.buffer == Replay(s, n, life.offsets)
  }

  /** What every run keeps, even one in which a byte total wraps. */
  ghost predicate FlowOk(s: Session, st: State) {
    && s.Ok()
    && LocksOk(st)
    && PacketsGenuine(s, st)
    && (forall n :: n in st.active ==> ReplayOk(s, n, st.active[n]))
    && (forall j :: 0 <= j < |st.decoded| ==> DecodeFlowOk(s, st.decoded[j]))
  }

  ghost predicate DecodeFlowOk(s: Session, d: Decode)
    requires s.Ok()
  {
    Offsets(s, d.frame, d.offsets) && d.bytes == Replay(s, d.frame, d.offsets).chunks
  }

  /** A buffer of a frame of the host into which something was delivered. */
  ghost predicate LifeOk(s: Session, n: nat, life: Life)
    requires s.Ok()
  {
    && n < |s.frames|
    && life.offsets != []
    && Offsets(s, n, life.offsets)
    && life.buffer == Replay(s, n, life.offsets)
  }

  /** The completion test succeeded at the k-th delivery. */
  ghost predicate CompletedAt(s: Session, n: nat, offs: seq<nat>, k: nat)
    requires s.Ok() && Offsets(s, n, offs)
  {
    0 < k <= |offs| && n < |s.frames| && Complete(Replay(s, n, offs[..k]))
  }

  ghost predicate HasCompleted(s: Session, n: nat, offs: seq<nat>)
    requires s.Ok()
  {
    Offsets(s, n, offs) && exists k: nat :: CompletedAt(s, n, offs, k)
  }

  /** The frame numbers on their way from the completion test to the erase, oldest first. */
  function Pending(st: State): seq<nat> {
    (match st.decoder
     case HasFrame(n) => [n]
     case Decoded(n, _) => [n]
     case Erasing(n) => [n]
     case _ => [])
    + st.frames.items
    + (if st.consumer.FrameComplete? then [st.consumer.frame] else [])
  }

  /** How often a frame is pending. */
  ghost function Occurrences(st: State, n: nat): nat {
    multiset(Pending(st))[n]
  }

  /** Frame n has a buffer that has passed the completion test. */
  ghost predicate Completed(s: Session, st: State, n: nat)
    requires s.Ok()
  {
    n in st.active && HasCompleted(s, n, st.active[n].offsets)
  }

  /** What is known of a call of decodeImage for a frame whose buffers complete once. */
  ghost predicate DecodeOk(s: Session, d: Decode)
    requires s.Ok()
  {
    DecodeFlowOk(s, d) && HasCompleted(s, d.frame, d.offsets)
  }

  /** Frame n is pending once, exactly if its buffer has completed; every decode of it was of a completed buffer. */
  ghost predicate FrameOk(s: Session, st: State, n: nat)
    requires s.Ok()
  {
    && (n in st.active ==> st.active[n].offsets != [])
    && Occurrences(st, n) == Units(Completed(s, st, n))
    && (forall j :: 0 <= j < |st.decoded| && st.decoded[j].frame == n ==> DecodeOk(s, st.decoded[j]))
  }

  ghost predicate Inv(s: Session, st: State, n: nat) {
    FlowOk(s, st) && FrameOk(s, st, n)
  }

  /** The completion test succeeded at one delivery at most. */
  ghost predicate CompletesOnce(s: Session, n: nat, offs: seq<nat>)
    requires s.Ok() && Offsets(s, n, offs)
  {
    forall j: nat, k: nat :: CompletedAt(s, n, offs, j) && CompletedAt(s, n, offs, k) ==> j == k
  }

  /** The active buffer of frame n has not passed the completion test twice. */
  ghost predicate NoSecondCompletion(s: Session, st: State, n: nat)
    requires s.Ok()
  {
    n in st.active && Offsets(s, n, st.active[n].offsets) ==> CompletesOnce(s, n, st.active[n].offsets)
  }

  lemma StepKeepsLocks(c: Config, st: State, step: Step)
    requires LocksOk(st) && Enabled(c, st, step)
    ensures LocksOk(Apply(c, st, step))
  {
    hide SQ.Queue.Dequeue, Acceptable, Absorb, Complete, Screen.CanPaint, Screen.Paint, Screen.Tick, Screen.PushPicture, Lookup;
    if step.DequeuePacket? {
      SQ.Dequeued(st.packets);
    } else if step.DequeueFrame? {
      SQ.Dequeued(st.frames);
    }
  }

  lemma StepKeepsPackets(s: Session, st: State, step: Step)
    requires s.config.Ok() && PacketsGenuine(s, st) && Enabled(s.config, st, step)
    requires step.Receive? ==> s.Genuine(step.pkt)
    ensures PacketsGenuine(s, Apply(s.config, st, step))
  {
    hide SQ.Queue.Dequeue, Acceptable, Absorb, Complete, Screen.CanPaint, Screen.Paint, Screen.Tick, Screen.PushPicture, Lookup, Session.Genuine;
    if step.DequeuePacket? {
      SQ.Dequeued(st.packets);
      assert forall j :: 0 <= j < |st.packets.Dequeue().items| ==> st.packets.Dequeue().items[j] == st.packets.items[j + 1];
    }
  }

  // ----- The one step that changes a buffer -----

  /** A genuine packet always fits the buffer it is for, and extends its history by one. */
  lemma AbsorbExtendsLife(s: Session, st: State, pkt: Packet)
    requires s.Ok() && s.Genuine(pkt)
    requires pkt.frameNumber in st.active ==> ReplayOk(s, pkt.frameNumber, st.active[pkt.frameNumber])
    ensures pkt.kind == PACKET_TYPE_STREAM
    ensures Acceptable(s.config, Lookup(st.active, pkt.frameNumber).buffer, pkt)
    ensures var life := Lookup(st.active, pkt.frameNumber);
            LifeOk(s, pkt.frameNumber, Life(Absorb(s.config, life.buffer, pkt), life.offsets + [pkt.offset]))
  {
    hide MakePacket, PacketCount, ChunkSize, Session.PacketAt;
    var (n, o) := (pkt.frameNumber, pkt.offset);
    GenuineShape(s, n, o);
    var life := Lookup(st.active, n);
    var offs := life.offsets + [o];
    assert life.buffer == Replay(s, n, life.offsets);
    assert offs[..|offs| - 1] == life.offsets;
    hide SQ.Queue.Dequeue, Absorb;
  }

  lemma InitKeepsFlow(s: Session)
    requires s.Ok()
    ensures FlowOk(s, Init())
  {
  }

  lemma InitKeepsInv(s: Session, n: nat)
    requires s.Ok()
    ensures Inv(s, Init(), n) && NoSecondCompletion(s, Init(), n)
  {
  }

  /** Whatever the decoder finds, or creates, under a number is a replay. */
  lemma DecodeKeepsFlow(s: Session, st: State, ok: bool)
    requires FlowOk(s, st) && Enabled(s.config, st, DecodeFrame(ok))
    ensures FlowOk(s, Apply(s.config, st, DecodeFrame(ok)))
  {
    hide SQ.Queue.Dequeue, LocksOk, PacketsGenuine, Offsets, Acceptable, Absorbed;
    var (n, life) := (st.decoder.number, Lookup(st.active, st.decoder.number));
    NothingReplays(s, n);
    StepKeepsLocks(s.config, st, DecodeFrame(ok));
    StepKeepsPackets(s, st, DecodeFrame(ok));
    assert ReplayOk(s, n, life);
    hide Replay;
    assert DecodeFlowOk(s, Decode(n, life.buffer.chunks, life.offsets, ok));
    hide DecodeFlowOk, ReplayOk;
  }

  lemma NothingReplays(s: Session, n: nat)
    requires s.Ok()
    ensures ReplayOk(s, n, Life(EMPTY, []))
  {
  }

  lemma StepKeepsFlow(s: Session, st: State, step: Step)
    requires FlowOk(s, st) && Enabled(s.config, st, step)
    requires step.Receive? ==> s.Genuine(step.pkt)
    ensures FlowOk(s, Apply(s.config, st, step))
  {
    hide SQ.Queue.Dequeue, LocksOk, PacketsGenuine, DecodeFlowOk, Acceptable, Absorb, Complete, Screen.CanPaint, Lookup;
    StepKeepsLocks(s.config, st, step);
    StepKeepsPackets(s, st, step);
    if step.AbsorbPacket? {
      AbsorbKeepsReplays(s, st);
    } else if step.DecodeFrame? {
      DecodeKeepsFlow(s, st, step.ok);
    }
    hide ReplayOk;
  }

  lemma AbsorbKeepsReplays(s: Session, st: State)
    requires s.Ok() && (forall n :: n in st.active ==> ReplayOk(s, n, st.active[n])) && PacketsGenuine(s, st)
    requires Enabled(s.config, st, AbsorbPacket)
    ensures var u := Apply(s.config, st, AbsorbPacket);
            u.decoded == st.decoded && forall n :: n in u.active ==> ReplayOk(s, n, u.active[n])
  {
    hide SQ.Queue.Dequeue, Acceptable, Absorb, Complete, Session.Genuine, Session.Ok, Replay, Offsets;
    AbsorbExtendsLife(s, st, st.consumer.pkt);
  }

  /** A completed history stays completed when it grows. */
  lemma CompletedStays(s: Session, n: nat, offs: seq<nat>, more: seq<nat>)
    requires s.Ok() && HasCompleted(s, n, offs) && offs <= more && Offsets(s, n, more)
    ensures HasCompleted(s, n, more)
  {
    hide Replay, Complete, Offsets;
    var k: nat :| CompletedAt(s, n, offs, k);
    assert more[..k] == offs[..k];
    assert CompletedAt(s, n, more, k);
  }

  /** What the test said of a history it says of every longer one. */
  lemma CompletedBefore(s: Session, n: nat, offs: seq<nat>, o: nat, k: nat)
    requires s.Ok() && Offsets(s, n, offs) && Offsets(s, n, offs + [o])
    ensures k <= |offs| ==> (CompletedAt(s, n, offs + [o], k) <==> CompletedAt(s, n, offs, k))
    ensures k == |offs| + 1 && n < |s.frames| ==> (CompletedAt(s, n, offs + [o], k) <==> Complete(Replay(s, n, offs + [o])))
  {
    hide Replay, Complete, Offsets;
    var more := offs + [o];
    if k <= |offs| {
      assert more[..k] == offs[..k];
    } else if k == |more| {
      assert more[..k] == more;
    }
  }

  /** In a buffer that completes once, the delivery at which the test succeeds finds it incomplete. */
  lemma CompletionIsFirst(s: Session, n: nat, offs: seq<nat>, o: nat)
    requires s.Ok() && n < |s.frames| && Offsets(s, n, offs) && Offsets(s, n, offs + [o])
    requires CompletesOnce(s, n, offs + [o]) && Complete(Replay(s, n, offs + [o]))
    ensures HasCompleted(s, n, offs + [o]) && !HasCompleted(s, n, offs)
  {
    hide Replay, Complete, Offsets, CompletedAt;
    CompletedBefore(s, n, offs, o, |offs| + 1);
    if HasCompleted(s, n, offs) {
      var k: nat :| CompletedAt(s, n, offs, k);
      CompletedWithin(s, n, offs, k);
      CompletedBefore(s, n, offs, o, k);
      assert false;
    }
  }

  lemma CompletedWithin(s: Session, n: nat, offs: seq<nat>, k: nat)
    requires s.Ok() && Offsets(s, n, offs) && CompletedAt(s, n, offs, k)
    ensures 0 < k <= |offs| && n < |s.frames|
  {
  }

  /** A delivery at which the test fails leaves the buffer as complete or incomplete as it was. */
  lemma NoCompletionIsOld(s: Session, n: nat, offs: seq<nat>, o: nat)
    requires s.Ok() && n < |s.frames| && Offsets(s, n, offs) && Offsets(s, n, offs + [o])
    requires !Complete(Replay(s, n, offs + [o])) && HasCompleted(s, n, offs + [o])
    ensures HasCompleted(s, n, offs)
  {
    hide Replay, Complete, Offsets, CompletedAt;
    var k: nat :| CompletedAt(s, n, offs + [o], k);
    CompletedWithin(s, n, offs + [o], k);
    CompletedBefore(s, n, offs, o, k);
  }

  lemma NothingCompletesNothing(s: Session, n: nat)
    requires s.Ok()
    ensures !HasCompleted(s, n, [])
  {
  }

  // ----- The frames on their way from the completion test to the erase -----

  /** The decoder takes over the first pending number and keeps it while it works; a completed frame changes hands. */
  lemma OthersKeepPending(c: Config, st: State, step: Step)
    requires Enabled(c, st, step) && !step.AbsorbPacket? && !step.EraseFrame?
    ensures Pending(Apply(c, st, step)) == Pending(st)
  {
    hide SQ.Queue.Dequeue, Absorbed, Acceptable, Lookup, Screen.CanPaint, Screen.Paint, Screen.Tick, Screen.PushPicture;
    if step.DequeueFrame? {
      SQ.Dequeued(st.frames);
      assert [] + st.frames.items == [st.frames.items[0]] + st.frames.Dequeue().items;
    }
  }

  /** The decoder's number is the first one pending. */
  lemma DecoderHoldsFirst(st: State)
    requires st.decoder.HasFrame? || st.decoder.Decoded? || st.decoder.Erasing?
    ensures Occurrences(st, st.decoder.number) > 0
  {
    assert Pending(st)[0] == st.decoder.number;
  }

  /** The erase drops it. */
  lemma ErasePending(c: Config, st: State)
    requires Enabled(c, st, EraseFrame)
    ensures Pending(st) == [st.decoder.number] + Pending(Apply(c, st, EraseFrame))
  {
    hide SQ.Queue.Dequeue, Absorbed, Acceptable, Lookup;
    var last := if st.consumer.FrameComplete? then [st.consumer.frame] else [];
    assert Pending(st) == [st.decoder.number] + (st.frames.items + last);
    assert [] + st.frames.items + last == st.frames.items + last;
  }

  /** A completion adds its frame. */
  lemma AbsorbPending(c: Config, st: State)
    requires Enabled(c, st, AbsorbPacket)
    ensures var (u, pkt) := (Apply(c, st, AbsorbPacket), st.consumer.pkt);
            Pending(u) == Pending(st)
                          + if pkt.kind == PACKET_TYPE_STREAM && Complete(u.active[pkt.frameNumber].buffer) then [pkt.frameNumber] else []
  {
    hide SQ.Queue.Dequeue, Acceptable, Absorb, Complete, Lookup;
  }

  lemma OffsetsBefore(s: Session, n: nat, offs: seq<nat>, o: nat)
    requires s.config.Ok()
    ensures Offsets(s, n, offs + [o]) ==> Offsets(s, n, offs)
  {
    hide Session.Valid;
    assert forall j :: 0 <= j < |offs| ==> (offs + [o])[j] == offs[j];
  }

  /** The delivery that the consumer absorbs, as it extends the history of its frame. */
  lemma AbsorbedHistory(s: Session, st: State)
    requires FlowOk(s, st) && Enabled(s.config, st, AbsorbPacket)
    ensures st.consumer.HasPacket?
    ensures var (u, n, o) := (Apply(s.config, st, AbsorbPacket), st.consumer.pkt.frameNumber, st.consumer.pkt.offset);
            var offs := Lookup(st.active, n).offsets;
            && n in u.active && LifeOk(s, n, u.active[n]) && u.active[n].offsets == offs + [o] && Offsets(s, n, offs)
            && u.active[n].buffer == Replay(s, n, offs + [o])
            && (forall m :: m != n ==> (m in u.active <==> m in st.active) && (m in st.active ==> u.active[m] == st.active[m]))
            && u.decoded == st.decoded && st.consumer.pkt.kind == PACKET_TYPE_STREAM
  {
    hide SQ.Queue.Dequeue, Acceptable, Absorb, Complete, LocksOk, DecodeFlowOk, Session.Genuine, Replay;
    AbsorbExtendsLife(s, st, st.consumer.pkt);
    OffsetsBefore(s, st.consumer.pkt.frameNumber, Lookup(st.active, st.consumer.pkt.frameNumber).offsets, st.consumer.pkt.offset);
  }

  lemma AbsorbKeepsFrame(s: Session, st: State, n: nat)
    requires Inv(s, st, n) && Enabled(s.config, st, AbsorbPacket) && NoSecondCompletion(s, Apply(s.config, st, AbsorbPacket), n)
    ensures FrameOk(s, Apply(s.config, st, AbsorbPacket), n)
  {
    hide FlowOk, Acceptable, Absorb, Complete, HasCompleted, DecodeOk, CompletesOnce, Replay, Offsets, Pending, Enabled, Apply;
    assert s.Ok() by {
      FlowIsOk(s, st);
    }
    AbsorbPending(s.config, st);
    AbsorbedHistory(s, st);
    var (offs, o) := (Lookup(st.active, n).offsets, st.consumer.pkt.offset);
    if n == st.consumer.pkt.frameNumber {
      NothingCompletesNothing(s, n);
      if Complete(Replay(s, n, offs + [o])) {
        CompletionIsFirst(s, n, offs, o);
      } else {
        if HasCompleted(s, n, offs) {
          CompletedStays(s, n, offs, offs + [o]);
        }
        if HasCompleted(s, n, offs + [o]) {
          NoCompletionIsOld(s, n, offs, o);
        }
      }
    }
  }

  lemma FlowIsOk(s: Session, st: State)
    requires FlowOk(s, st)
    ensures s.Ok()
  {
  }

  /** The decoder's lookup of a frame finds its completed buffer. */
  lemma DecodeKeepsFrame(s: Session, st: State, ok: bool, n: nat)
    requires Inv(s, st, n) && Enabled(s.config, st, DecodeFrame(ok))
    ensures FrameOk(s, Apply(s.config, st, DecodeFrame(ok)), n)
    ensures n == st.decoder.number ==> n in st.active
    ensures var u := Apply(s.config, st, DecodeFrame(ok)); (n in u.active <==> n in st.active) && (n in st.active ==> u.active[n] == st.active[n])
  {
    hide LocksOk, PacketsGenuine, HasCompleted, Replay, Offsets, Pending, Acceptable, Absorbed;
    DecoderHoldsFirst(st);
    OthersKeepPending(s.config, st, DecodeFrame(ok));
  }

  lemma EraseKeepsFrame(s: Session, st: State, n: nat)
    requires Inv(s, st, n) && Enabled(s.config, st, EraseFrame)
    ensures FrameOk(s, Apply(s.config, st, EraseFrame), n)
  {
    hide FlowOk, HasCompleted, DecodeOk, Pending, Acceptable, Absorbed;
    FlowIsOk(s, st);
    ErasePending(s.config, st);
    assert multiset(Pending(st)) == multiset{st.decoder.number} + multiset(Pending(Apply(s.config, st, EraseFrame)));
  }

  lemma OthersKeepFrame(s: Session, st: State, step: Step, n: nat)
    requires Inv(s, st, n) && Enabled(s.config, st, step) && !step.AbsorbPacket? && !step.DecodeFrame? && !step.EraseFrame?
    ensures FrameOk(s, Apply(s.config, st, step), n)
    ensures Apply(s.config, st, step).active == st.active
  {
    hide FlowOk, HasCompleted, DecodeOk, Pending, Acceptable, Absorbed, SQ.Queue.Dequeue, Screen.CanPaint, Lookup;
    FlowIsOk(s, st);
    OthersKeepPending(s.config, st, step);
  }

  lemma StepKeepsInv(s: Session, st: State, step: Step, n: nat)
    requires Inv(s, st, n) && Enabled(s.config, st, step) && NoSecondCompletion(s, Apply(s.config, st, step), n)
    requires step.Receive? ==> s.Genuine(step.pkt)
    ensures Inv(s, Apply(s.config, st, step), n)
  {
    FlowIsOk(s, st);
    StepKeepsFlow(s, st, step);
    hide Enabled, Apply, FlowOk, FrameOk, NoSecondCompletion;
    match step
    case AbsorbPacket => AbsorbKeepsFrame(s, st, n);
    case DecodeFrame(ok) => DecodeKeepsFrame(s, st, ok, n);
    case EraseFrame => EraseKeepsFrame(s, st, n);
    case _ => OthersKeepFrame(s, st, step, n);
  }

  // ----- What the invariant says of the queues and the buffers -----

  /**
    While the consumer waits on packetQueue's semaphore it holds the mutex the
    receiver needs to push; a unit is there unless as many releases failed as
    packets are queued. And past the wait there is a packet to pop.
   */
  lemma ConsumerWaitsForAUnit(st: State)
    requires LocksOk(st)
    ensures st.consumer.ConsumerLocked? ==>
              && st.packets.items != []
              && (st.packets.count >= 1 <==> st.packets.failed < |st.packets.items|)
    ensures st.consumer.PacketAdmitted? ==> st.packets.items != []
    ensures st.decoder.FrameAdmitted? ==> st.frames.items != []
  {
  }

  /** The steps of the receiver and the consumer, apart from taking a datagram off the socket. */
  predicate HandOff(step: Step) {
    || step.LockForPush? || step.EnqueuePacket? || step.ReleasePacket? || step.UnlockAfterPush?
    || step.SeePacket? || step.LockForPop? || step.AdmitPacket? || step.DequeuePacket?
    || step.AbsorbPacket? || step.EnqueueFrame? || step.ReleaseFrame? || step.UnlockAfterPop?
  }

  /** The consumer and the receiver block each other for good exactly when no unit is left for any queued packet. */
  lemma HandOffBlocksIff(c: Config, st: State)
    requires LocksOk(st) && st.consumer.ConsumerLocked?
    ensures (forall step :: HandOff(step) ==> !Enabled(c, st, step)) <==> st.packets.failed == |st.packets.items|
    ensures forall step :: !HandOff(step) && Enabled(c, st, step) ==>
              Apply(c, st, step).consumer == st.consumer && Apply(c, st, step).packets == st.packets
  {
    hide SQ.Queue.Dequeue, Acceptable, Absorb, Screen.CanPaint;
    if forall step :: HandOff(step) ==> !Enabled(c, st, step) {
      assert HandOff(AdmitPacket);
    }
  }

  predicate Quiescent(st: State) {
    st.receiver.Listening? && st.consumer.Polling? && st.packets.items == [] && st.decoder.DecoderPolling? && st.frames.items == []
  }

  /** The copy of a packet that the consumer holds stays inside its buffer. */
  lemma HeldPacketFits(s: Session, st: State)
    requires FlowOk(s, st) && st.consumer.HasPacket?
    ensures Enabled(s.config, st, AbsorbPacket)
  {
    hide SQ.Queue.Dequeue, Acceptable, Absorb, ReplayOk, DecodeFlowOk, LocksOk, Session.Genuine, Session.Ok, Replay, Offsets;
    AbsorbExtendsLife(s, st, st.consumer.pkt);
  }

  lemma DecoderCanStep(c: Config, st: State) returns (step: Step)
    requires LocksOk(st) && !DecoderAtRest(st)
    ensures ThreadStep(step) && Enabled(c, st, step) && (step.DecodeFrame? ==> step.ok)
  {
    hide Acceptable, Screen.CanPaint, Lookup;
    step := match st.decoder
            case DecoderPolling => SeeFrame
            case SawFrame => AdmitFrame
            case FrameAdmitted => DequeueFrame
            case HasFrame(_) => DecodeFrame(true)
            case Decoded(_, _) => ShowFrame
            case Erasing(_) => EraseFrame;
  }

  /** The holder of dataMutex, or whoever is about to take it, can step unless the consumer waits in vain. */
  lemma HandOffCanStep(s: Session, st: State) returns (step: Step)
    requires FlowOk(s, st) && !HandOffAtRest(st)
    ensures ThreadStep(step) && Enabled(s.config, st, step) && !step.DecodeFrame?
  {
    if st.consumer.HasPacket? {
      HeldPacketFits(s, st);
    }
    hide Acceptable, PacketsGenuine, ReplayOk, DecodeFlowOk, Session.Ok, Screen.CanPaint, Lookup;
    step := match st.receiver
            case ReceiverLocked(_) => EnqueuePacket
            case PacketEnqueued => ReleasePacket
            case PacketReleased => UnlockAfterPush
            case _ =>
              match st.consumer
              case ConsumerLocked => AdmitPacket
              case PacketAdmitted => DequeuePacket
              case HasPacket(_) => AbsorbPacket
              case FrameComplete(_) => EnqueueFrame
              case FrameEnqueued => ReleaseFrame
              case IterationDone => UnlockAfterPop
              case SawPacket => LockForPop
              case Polling => if st.receiver.Acked? then LockForPush else SeePacket;
  }

  /** Deadlock freedom: while any packet or frame number is under way, some thread of the client can step. */
  lemma ClientNeverStuck(s: Session, st: State) returns (step: Step)
    requires FlowOk(s, st) && st.packets.failed == 0 && st.frames.failed == 0 && !Quiescent(st)
    ensures ThreadStep(step) && Enabled(s.config, st, step) && (step.DecodeFrame? ==> step.ok)
  {
    hide Acceptable, PacketsGenuine, ReplayOk, DecodeFlowOk, Session.Ok, Screen.CanPaint, Lookup;
    if !HandOffAtRest(st) {
      step := HandOffCanStep(s, st);
    } else {
      step := DecoderCanStep(s.config, st);
    }
  }

  /** Receiver and consumer have nothing to do, or the consumer waits for a unit that does not come. */
  predicate HandOffAtRest(st: State) {
    || (st.receiver.Listening? && st.consumer.Polling? && st.packets.items == [])
    || (st.consumer.ConsumerLocked? && st.packets.count == 0)
  }

  predicate DecoderAtRest(st: State) {
    || (st.decoder.DecoderPolling? && st.frames.items == [])
    || (st.decoder.SawFrame? && st.frames.count == 0)
  }

  /** Exactly when no thread of the client can step: each side is idle, or waits for a unit that is not there. */
  lemma ClientStopsIff(s: Session, st: State)
    requires FlowOk(s, st)
    ensures (forall step :: ThreadStep(step) ==> !Enabled(s.config, st, step)) <==> HandOffAtRest(st) && DecoderAtRest(st)
  {
    hide Acceptable, PacketsGenuine, ReplayOk, DecodeFlowOk, Session.Ok, Screen.CanPaint, Lookup;
    if forall step :: ThreadStep(step) ==> !Enabled(s.config, st, step) {
      if !HandOffAtRest(st) {
        var step := HandOffCanStep(s, st);
      }
      if !DecoderAtRest(st) {
        var step := DecoderCanStep(s.config, st);
      }
    }
  }

  // ----- When each thread can step, and what its steps outside the queues do -----

  predicate ReceiverStep(step: Step) {
    step.LockForPush? || step.EnqueuePacket? || step.ReleasePacket? || step.UnlockAfterPush?
  }

  predicate DecoderStep(step: Step) {
    step.SeeFrame? || step.AdmitFrame? || step.DequeueFrame? || step.DecodeFrame? || step.ShowFrame? || step.EraseFrame?
  }

  /** The receiver waits for a datagram, or for dataMutex, and for nothing else. */
  lemma ReceiverCanStepIff(c: Config, st: State)
    ensures (exists step :: ReceiverStep(step) && Enabled(c, st, step)) <==> !st.receiver.Listening? && (st.receiver.Acked? ==> st.owner == Free)
    ensures forall pkt :: Enabled(c, st, Receive(pkt)) <==> st.receiver.Listening?
  {
    hide Acceptable, Lookup;
    match st.receiver
    case Listening =>
    case Acked(_) => assert ReceiverStep(LockForPush);
    case ReceiverLocked(_) => assert ReceiverStep(EnqueuePacket);
    case PacketEnqueued => assert ReceiverStep(ReleasePacket);
    case PacketReleased => assert ReceiverStep(UnlockAfterPush);
  }

  /** The consumer waits for a packet to be queued, for dataMutex, or for a unit, and for nothing else. */
  lemma ConsumerCanStepIff(s: Session, st: State)
    requires FlowOk(s, st)
    ensures (exists step :: HandOff(step) && !ReceiverStep(step) && Enabled(s.config, st, step))
       <==> match st.consumer
            case Polling => st.packets.items != []
            case SawPacket => st.owner == Free
            case ConsumerLocked => st.packets.count > 0
            case _ => true
  {
    if st.consumer.HasPacket? {
      HeldPacketFits(s, st);
    }
    hide Acceptable, Lookup, PacketsGenuine, ReplayOk, DecodeFlowOk, Session.Ok;
    match st.consumer
    case Polling => assert HandOff(SeePacket);
    case SawPacket => assert HandOff(LockForPop);
    case ConsumerLocked => assert HandOff(AdmitPacket);
    case PacketAdmitted => assert HandOff(DequeuePacket);
    case HasPacket(_) => assert HandOff(AbsorbPacket);
    case FrameComplete(_) => assert HandOff(EnqueueFrame);
    case FrameEnqueued => assert HandOff(ReleaseFrame);
    case IterationDone => assert HandOff(UnlockAfterPop);
  }

  /** The decoder waits for a frame to be queued or for a unit; decodeImage may succeed or fail. */
  lemma DecoderCanStepIff(c: Config, st: State)
    requires LocksOk(st)
    ensures (exists step :: DecoderStep(step) && Enabled(c, st, step))
       <==> match st.decoder
            case DecoderPolling => st.frames.items != []
            case SawFrame => st.frames.count > 0
            case _ => true
    ensures forall ok :: Enabled(c, st, DecodeFrame(ok)) <==> st.decoder.HasFrame?
  {
    hide Acceptable, Lookup;
    match st.decoder
    case DecoderPolling => assert DecoderStep(SeeFrame);
    case SawFrame => assert DecoderStep(AdmitFrame);
    case FrameAdmitted => assert DecoderStep(DequeueFrame);
    case HasFrame(_) => assert DecoderStep(DecodeFrame(true));
    case Decoded(_, _) => assert DecoderStep(ShowFrame);
    case Erasing(_) => assert DecoderStep(EraseFrame);
  }

  /**
    What the decoder makes of the frame it holds: the bytes of its buffer are
    decoded, and exactly if decodeImage returned a bitmap a picture of it is queued.
   */
  lemma DecodedIsShown(c: Config, st: State, ok: bool)
    requires st.decoder.HasFrame?
    ensures var (n, life) := (st.decoder.number, Lookup(st.active, st.decoder.number));
            var d := Decode(n, life.buffer.chunks, life.offsets, ok);
            var u := Apply(c, st, DecodeFrame(ok));
            && Enabled(c, u, ShowFrame)
            && u.decoded == st.decoded + [d] && u.screen == st.screen
            && var v := Apply(c, u, ShowFrame);
            && v.screen.queue == st.screen.queue + (if ok then multiset{Screen.Picture(n, d)} else multiset{})
            && v.screen.loadFrame == st.screen.loadFrame && v.decoded == u.decoded && Enabled(c, v, EraseFrame)
  {
    hide Acceptable, Lookup;
  }

  /** The window shows a waiting picture with a least number once a tick has come, whatever else is queued. */
  lemma WindowSteps(c: Config, st: State, p: Screen.Picture<Decode>)
    ensures Enabled(c, st, Paint(p)) <==> st.screen.loadFrame && p in st.screen.queue && forall x :: x in st.screen.queue ==> p.number <= x.number
    ensures Enabled(c, st, Paint(p)) ==>
              Apply(c, st, Paint(p))
              == st.(screen := Screen.State(st.screen.queue[p := st.screen.queue[p] - 1], false, st.screen.log + [Screen.Painted(p)]))
    ensures Enabled(c, st, Tick)
    ensures Apply(c, st, Tick) == st.(screen := Screen.State(st.screen.queue, true, st.screen.log + [Screen.Ticked]))
  {
  }

  /** A release of either queue counts below the limit of the semaphore and fails at it. */
  lemma ReleasesFailIff(c: Config, st: State)
    ensures st.receiver.PacketEnqueued? && st.packets.count <= 0x7FFF_FFFF ==>
              var u := Apply(c, st, ReleasePacket).packets;
              if st.packets.count < 0x7FFF_FFFF then u == SQ.Queue(st.packets.items, st.packets.count + 1, st.packets.failed)
              else u == SQ.Queue(st.packets.items, st.packets.count, st.packets.failed + 1)
    ensures st.consumer.FrameEnqueued? && st.frames.count <= 0x7FFF_FFFF ==>
              var u := Apply(c, st, ReleaseFrame).frames;
              if st.frames.count < 0x7FFF_FFFF then u == SQ.Queue(st.frames.items, st.frames.count + 1, st.frames.failed)
              else u == SQ.Queue(st.frames.items, st.frames.count, st.frames.failed + 1)
  {
  }

  /** A step of the receiver, the consumer or the decoder, apart from taking a datagram off the socket. */
  predicate ThreadStep(step: Step) {
    !step.Receive? && !step.Paint? && !step.Tick?
  }

  /** A bound on the steps that what is under way still needs. */
  function Work(st: State): nat {
    16 * |st.packets.items| + 8 * |st.frames.items| + ReceiverWork(st.receiver) + ConsumerWork(st.consumer) + DecoderWork(st.decoder)
  }

  function ReceiverWork(r: Receiver): nat {
    match r
    case Listening => 0
    case PacketReleased => 1
    case PacketEnqueued => 2
    case ReceiverLocked(_) => 19
    case Acked(_) => 20
  }

  function ConsumerWork(r: Consumer): nat {
    match r
    case PacketAdmitted => 1
    case ConsumerLocked => 2
    case SawPacket => 3
    case Polling => 4
    case IterationDone => 5
    case FrameEnqueued => 6
    case FrameComplete(_) => 15
    case HasPacket(_) => 16
  }

  function DecoderWork(r: Decoder): nat {
    match r
    case FrameAdmitted => 1
    case SawFrame => 2
    case DecoderPolling => 3
    case Erasing(_) => 6
    case Decoded(_, _) => 7
    case HasFrame(_) => 8
  }

  lemma ReceiverAndConsumerUseUpWork(c: Config, st: State, step: Step)
    requires Enabled(c, st, step) && HandOff(step)
    ensures Work(Apply(c, st, step)) < Work(st)
  {
    hide SQ.Queue.Dequeue, Acceptable, Absorb, Complete, Lookup, DecoderWork;
    if step.DequeuePacket? {
      SQ.Dequeued(st.packets);
    }
  }

  lemma DecoderUsesUpWork(c: Config, st: State, step: Step)
    requires Enabled(c, st, step) && ThreadStep(step) && !HandOff(step)
    ensures Work(Apply(c, st, step)) < Work(st)
  {
    hide SQ.Queue.Dequeue, Acceptable, Absorbed, Lookup, Screen.PushPicture, ReceiverWork, ConsumerWork;
    if step.DequeueFrame? {
      SQ.Dequeued(st.frames);
    }
  }

  lemma ThreadStepsUseUpWork(c: Config, st: State, step: Step)
    requires Enabled(c, st, step) && ThreadStep(step)
    ensures Work(Apply(c, st, step)) < Work(st)
  {
    hide Enabled, Apply, Work;
    if HandOff(step) {
      ReceiverAndConsumerUseUpWork(c, st, step);
    } else {
      DecoderUsesUpWork(c, st, step);
    }
  }

  ghost predicate ThreadsRun(c: Config, st: State, steps: seq<Step>)
    decreases steps
  {
    steps == [] || (ThreadStep(steps[0]) && Enabled(c, st, steps[0]) && ThreadsRun(c, Apply(c, st, steps[0]), steps[1..]))
  }

  ghost function ThreadsAfter(c: Config, st: State, steps: seq<Step>): State
    requires ThreadsRun(c, st, steps)
    decreases steps
  {
    if steps == [] then st else ThreadsAfter(c, Apply(c, st, steps[0]), steps[1..])
  }

  lemma StepFirst(c: Config, st: State, step: Step, rest: seq<Step>)
    requires ThreadStep(step) && Enabled(c, st, step) && ThreadsRun(c, Apply(c, st, step), rest)
    ensures ThreadsRun(c, st, [step] + rest)
    ensures ThreadsAfter(c, st, [step] + rest) == ThreadsAfter(c, Apply(c, st, step), rest)
  {
    hide Enabled, Apply;
    assert ([step] + rest)[1..] == rest;
  }

  // ----- Working everything off -----

  /** The packets and frame numbers under way between the socket and the decoder. */
  function Load(st: State): nat {
    Units(st.receiver.Acked? || st.receiver.ReceiverLocked?) + |st.packets.items| + Units(st.consumer.HasPacket?)
    + Units(st.consumer.FrameComplete?) + |st.frames.items|
  }

  /** No release has failed. */
  predicate NoneFailed(st: State) {
    st.packets.failed == 0 && st.frames.failed == 0
  }

  /** A thread step leaves no more under way than there was. */
  lemma ThreadStepKeepsLoad(c: Config, st: State, step: Step)
    requires Enabled(c, st, step) && ThreadStep(step)
    ensures Load(Apply(c, st, step)) <= Load(st) && Apply(c, st, step).read == st.read
  {
    hide SQ.Queue.Dequeue, Acceptable, Absorb, Complete, Lookup, Screen.PushPicture;
    if step.DequeuePacket? {
      SQ.Dequeued(st.packets);
    } else if step.DequeueFrame? {
      SQ.Dequeued(st.frames);
    }
  }

  /** A release fails only when more than MAXINT packets or frame numbers are queued. */
  lemma ReleasesSucceed(c: Config, st: State, step: Step)
    requires LocksOk(st) && Enabled(c, st, step) && Load(st) <= 0x7FFF_FFFF
    ensures Apply(c, st, step).packets.failed == st.packets.failed && Apply(c, st, step).frames.failed == st.frames.failed
  {
    hide SQ.Queue.Dequeue, Acceptable, Absorb, Complete, Lookup, Screen.CanPaint, Screen.Paint, Screen.Tick, Screen.PushPicture;
    if step.DequeuePacket? {
      SQ.Dequeued(st.packets);
    } else if step.DequeueFrame? {
      SQ.Dequeued(st.frames);
    }
  }

  /** Thread steps alone bring the client to rest with everything worked off. */
  lemma {:induction false} CanFinish(s: Session, st: State) returns (steps: seq<Step>)
    requires FlowOk(s, st) && NoneFailed(st) && Load(st) <= 0x7FFF_FFFF
    ensures ThreadsRun(s.config, st, steps) && |steps| <= Work(st)
    ensures forall j :: 0 <= j < |steps| && steps[j].DecodeFrame? ==> steps[j].ok
    ensures var u := ThreadsAfter(s.config, st, steps); Quiescent(u) && NoneFailed(u) && u.read == st.read
    decreases Work(st)
  {
    hide Enabled, Apply, FlowOk, Work, Load, Quiescent;
    if Quiescent(st) {
      steps := [];
    } else {
      var step := ClientNeverStuck(s, st);
      ThreadStepsUseUpWork(s.config, st, step);
      ThreadStepKeepsLoad(s.config, st, step);
      FlowHasLocks(s, st);
      ReleasesSucceed(s.config, st, step);
      StepKeepsFlow(s, st, step);
      var rest := CanFinish(s, Apply(s.config, st, step));
      StepFirst(s.config, st, step, rest);
      steps := [step] + rest;
    }
  }

  lemma FlowHasLocks(s: Session, st: State)
    requires FlowOk(s, st)
    ensures LocksOk(st)
  {
  }

  /**
    No livelock: with nothing new from the socket the threads take at most
    Work(st) steps; by ClientNeverStuck they stop only when all is done.
   */
  lemma {:induction false} ThreadsDrain(c: Config, st: State, steps: seq<Step>)
    requires ThreadsRun(c, st, steps)
    ensures |steps| <= Work(st)
    decreases steps
  {
    hide Enabled, Apply, Work;
    if steps != [] {
      ThreadStepsUseUpWork(c, st, steps[0]);
      ThreadsDrain(c, Apply(c, st, steps[0]), steps[1..]);
    }
  }

  /**
    A pending frame, from the completion test to the erase: it is pending once,
    its completed buffer is still in activeFrames, with a byte total that has
    reached its size unless it wrapped, and the decoder's lookup creates nothing.
   */
  lemma PendingFramesAreThere(s: Session, st: State, n: nat)
    requires Inv(s, st, n) && n in Pending(st)
    ensures Occurrences(st, n) == 1
    ensures n in st.active && HasCompleted(s, n, st.active[n].offsets) && Lookup(st.active, n) == st.active[n]
    ensures st.active[n].buffer.expectedSize > 0
    ensures Bytes(s, n, st.active[n].offsets) < DWORD_LIMIT ==> st.active[n].buffer.totalSize >= st.active[n].buffer.expectedSize
  {
    hide MakePacket, PacketCount, Session.PacketAt, Absorb, LocksOk, PacketsGenuine, DecodeOk, Pending;
    var offs := st.active[n].offsets;
    assert ReplayOk(s, n, st.active[n]);
    var k: nat :| CompletedAt(s, n, offs, k);
    BytesUpTo(s, n, offs, k);
    ReplayTotals(s, n, offs);
    CompletedBytes(s, n, offs, k);
    hide Replay, Bytes, Dword;
    if Bytes(s, n, offs) < DWORD_LIMIT {
      DwordSmall(Bytes(s, n, offs));
      DwordSmall(Bytes(s, n, offs[..k]));
    }
  }

  lemma BytesUpTo(s: Session, n: nat, offs: seq<nat>, k: nat)
    requires s.Ok() && Offsets(s, n, offs) && k <= |offs|
    ensures Bytes(s, n, offs[..k]) <= Bytes(s, n, offs)
  {
    hide Bytes;
    if k < |offs| {
      BytesGrow(s, n, offs, k);
    } else {
      assert offs[..k] == offs;
    }
  }

  /** What the test compares at a completion point. */
  lemma CompletedBytes(s: Session, n: nat, offs: seq<nat>, k: nat)
    requires s.Ok() && Offsets(s, n, offs) && CompletedAt(s, n, offs, k)
    ensures Dword(Bytes(s, n, offs[..k])) == |s.frames[n]|
  {
    hide Bytes, Dword, MakePacket, PacketCount, Absorb;
    ReplayTotals(s, n, offs[..k]);
  }

  /** Between two completions of one buffer at least 2^32 bytes are delivered into it. */
  lemma SecondCompletionIsAWrap(s: Session, n: nat, offs: seq<nat>, j: nat, k: nat)
    requires s.Ok() && Offsets(s, n, offs) && CompletedAt(s, n, offs, j) && CompletedAt(s, n, offs, k) && j < k
    ensures Bytes(s, n, offs[..k]) >= Bytes(s, n, offs[..j]) + DWORD_LIMIT
  {
    CompletedBytes(s, n, offs, j);
    CompletedBytes(s, n, offs, k);
    hide Bytes, Dword, Replay;
    assert offs[..k][..j] == offs[..j];
    BytesGrow(s, n, offs[..k], j);
    WrapIsRemainder(Bytes(s, n, offs[..j]), DWORD_LIMIT);
    WrapIsRemainder(Bytes(s, n, offs[..k]), DWORD_LIMIT);
  }

  /** So a buffer into which fewer than 2^32 bytes were delivered completes once. */
  lemma UnwrappedCompletesOnce(s: Session, n: nat, offs: seq<nat>)
    requires s.Ok() && Offsets(s, n, offs) && Bytes(s, n, offs) < DWORD_LIMIT
    ensures CompletesOnce(s, n, offs)
  {
    hide Bytes, Replay;
    forall j: nat, k: nat | CompletedAt(s, n, offs, j) && CompletedAt(s, n, offs, k)
      ensures j == k
    {
      BytesUpTo(s, n, offs, j);
      BytesUpTo(s, n, offs, k);
      if j < k {
        SecondCompletionIsAWrap(s, n, offs, j, k);
      } else if k < j {
        SecondCompletionIsAWrap(s, n, offs, k, j);
      }
    }
  }

  /** Fewer than 2^32 bytes are delivered by fewer than 2^32 / p deliveries. */
  lemma {:induction false} BytesAtMost(s: Session, n: nat, offs: seq<nat>)
    requires s.Ok() && Offsets(s, n, offs)
    ensures Bytes(s, n, offs) <= Times(|offs|, s.P())
  {
    hide PacketCount, MakePacket;
    if offs != [] {
      BytesAtMost(s, n, offs[..|offs| - 1]);
    }
  }

  /** A buffer that completes a second time has its number queued a second time. */
  lemma SecondCompletionRepeats(s: Session, st: State, step: Step, n: nat)
    requires Inv(s, st, n) && NoSecondCompletion(s, st, n) && Enabled(s.config, st, step)
    requires !NoSecondCompletion(s, Apply(s.config, st, step), n)
    ensures Occurrences(Apply(s.config, st, step), n) == 2
  {
    FlowIsOk(s, st);
    hide Enabled, Apply, FlowOk, FrameOk, CompletesOnce, Offsets, Pending;
    match step
    case AbsorbPacket => AbsorbedTwiceRepeats(s, st, n);
    case DecodeFrame(ok) => DecodeKeepsFrame(s, st, ok, n);
    case EraseFrame => EraseLeavesOthers(s.config, st);
    case _ => OthersKeepFrame(s, st, step, n);
  }

  lemma EraseLeavesOthers(c: Config, st: State)
    requires Enabled(c, st, EraseFrame)
    ensures Apply(c, st, EraseFrame).active == st.active - {st.decoder.number}
  {
  }

  lemma AbsorbedTwiceRepeats(s: Session, st: State, n: nat)
    requires Inv(s, st, n) && NoSecondCompletion(s, st, n) && Enabled(s.config, st, AbsorbPacket)
    requires !NoSecondCompletion(s, Apply(s.config, st, AbsorbPacket), n)
    ensures Occurrences(Apply(s.config, st, AbsorbPacket), n) == 2
  {
    hide FlowOk, Enabled, Apply, Complete, DecodeOk, Replay, Offsets, CompletedAt, Pending;
    FlowIsOk(s, st);
    AbsorbedHistory(s, st);
    AbsorbPending(s.config, st);
    assert n == st.consumer.pkt.frameNumber;
    var (offs, o) := (Lookup(st.active, n).offsets, st.consumer.pkt.offset);
    var j: nat, k: nat :| CompletedAt(s, n, offs + [o], j) && CompletedAt(s, n, offs + [o], k) && j < k;
    CompletedWithin(s, n, offs + [o], j);
    CompletedWithin(s, n, offs + [o], k);
    CompletedBefore(s, n, offs, o, j);
    CompletedBefore(s, n, offs, o, k);
    assert CompletedAt(s, n, offs, j) && HasCompleted(s, n, offs);
    NothingCompletesNothing(s, n);
    assert n in st.active && k == |offs| + 1;
  }

  /** What never reached the buffer is zero in the frame. */
  ghost predicate MissingIsZero(s: Session, d: Decode)
    requires s.Ok() && d.frame < |s.frames|
  {
    forall x: nat :: x < |s.frames[d.frame]| && Quotient(x, s.P()) !in d.offsets ==> s.frames[d.frame][x] == 0
  }

  /**
    The picture handed to decodeImage: at a delivery that completed its buffer,
    every chunk had arrived, without a wrap of the byte total, if and only if
    none had come twice; once every chunk has arrived the bytes are the host's
    frame whatever is delivered between completion and decode.
   */
  lemma DecodeIsFaithful(s: Session, d: Decode, k: nat)
    requires s.Ok() && DecodeFlowOk(s, d) && CompletedAt(s, d.frame, d.offsets, k)
    ensures NoDup(d.offsets[..k]) <==> AllArrived(s, d.frame, d.offsets[..k]) && Bytes(s, d.frame, d.offsets[..k]) < DWORD_LIMIT
    ensures AllArrived(s, d.frame, d.offsets[..k]) ==> d.bytes == s.frames[d.frame]
  {
    hide MakePacket, PacketCount, Session.PacketAt, Absorb, ChunkSize, Bytes, Replay;
    var offs := d.offsets[..k];
    CompletionIsExact(s, d.frame, offs);
    if AllArrived(s, d.frame, offs) {
      assert forall i: nat :: i in offs ==> i in d.offsets;
      AllArrivedIsFrame(s, d.frame, d.offsets);
    }
  }

  /** The exact condition under which what is decoded is the host's frame. */
  lemma DecodedIsFrameIff(s: Session, d: Decode)
    requires s.Ok() && DecodeFlowOk(s, d) && d.offsets != []
    ensures d.frame < |s.frames|
    ensures d.bytes == s.frames[d.frame] <==> MissingIsZero(s, d)
  {
    hide MakePacket, PacketCount, Session.PacketAt, Replay;
    assert s.Valid(d.frame, d.offsets[0]);
    BufferIsFrameIff(s, d.frame, d.offsets);
  }

  /** The buffers of activeFrames without their histories. */
  function Buffers(active: map<nat, Life>): map<nat, Buffer> {
    map n | n in active :: active[n].buffer
  }

  /** On the buffers the consumer's and the decoder's steps do what the methods of FrameTable.ActiveFrames do. */
  lemma StepsMatchFrameTable(c: Config, st: State, step: Step)
    requires Enabled(c, st, step)
    ensures var was, now := Buffers(st.active), Buffers(Apply(c, st, step).active);
            && (step.AbsorbPacket? && st.consumer.pkt.kind == PACKET_TYPE_STREAM ==>
                  var n := st.consumer.pkt.frameNumber;
                  && Acceptable(c, if n in was then was[n] else EMPTY, st.consumer.pkt)
                  && now == was[n := Absorb(c, if n in was then was[n] else EMPTY, st.consumer.pkt)])
            && (step.DecodeFrame? ==>
                  var n := st.decoder.number; now == if n in was then was else was[n := EMPTY])
            && (step.EraseFrame? ==> now == was - {st.decoder.number})
            && (!step.AbsorbPacket? && !step.DecodeFrame? && !step.EraseFrame? ==> now == was)
  {
    hide SQ.Queue.Dequeue, Acceptable, Absorb, Complete, Screen.CanPaint, Screen.Paint, Screen.Tick, Screen.PushPicture;
  }
}

/**
  The host's three threads and the network as a step machine: the sender sends
  each packet and saves it afterwards, the receiver drops acknowledged packets,
  the acker resends what is saved. The network is a bag in each direction; it
  may lose, duplicate and reorder datagrams but not alter them.
 */
module Transport {
  import opened Words
  import opened Packets
  import opened Sequencing
  import opened HostPacketManager

  /** sendStream's position: about to send packet index of a frame, or between its sendto and its save. */
  datatype Sender = AtPacket(frame: nat, index: nat) | Unsaved(frame: nat, index: nat, pkt: Packet)

  datatype State = State(
    sender: Sender,
    sequenceNumber: nat,
    recent: map<nat, Packet>,
    toClient: multiset<Packet>,
    toHost: multiset<nat>,
    received: set<nat>,  // sequence numbers the client's receiver thread has read
    dropped: set<nat>)   // sequence numbers discarded by an overflow clear

  datatype Step =
    | Send
    | Save
    | NextFrame
    | HandleAck(k: nat)
    | AckPass(order: seq<nat>)
    | Receive(pkt: Packet)
    | LosePacket(pkt: Packet)
    | DuplicatePacket(pkt: Packet)
    | LoseAck(k: nat)
    | DuplicateAck(k: nat)

  function Init(): State {
    State(AtPacket(0, 0), 0, map[], multiset{}, multiset{}, {}, {})
  }

  ghost predicate Enabled(s: Session, t: State, step: Step)
    requires s.config.Ok()
  {
    match step
    case Send => t.sender.AtPacket? && s.Valid(t.sender.frame, t.sender.index)
    case Save => t.sender.Unsaved?
    case NextFrame => t.sender.AtPacket? && t.sender.frame < |s.frames| && t.sender.index == s.Count(t.sender.frame)
    case HandleAck(k) => k in t.toHost
    case AckPass(order) => Visits(order, t.recent)
    case Receive(pkt) => pkt in t.toClient
    case LosePacket(pkt) => pkt in t.toClient
    case DuplicatePacket(pkt) => pkt in t.toClient
    case LoseAck(k) => k in t.toHost
    case DuplicateAck(k) => k in t.toHost
  }

  function Apply(s: Session, t: State, step: Step): State
    requires s.config.Ok() && Enabled(s, t, step)
  {
    match step
    case Send =>
      var (f, i) := (t.sender.frame, t.sender.index);
      var pkt := MakePacket(s.config, s.frames[f], f, i, t.sequenceNumber);
      t.(sender := Unsaved(f, i, pkt), sequenceNumber := Dword(t.sequenceNumber + 1), toClient := t.toClient + multiset{pkt})
    case Save =>
      t.(sender := AtPacket(t.sender.frame, t.sender.index + 1), recent := Emplace(t.recent, t.sender.pkt))
    case NextFrame =>
      t.(sender := AtPacket(t.sender.frame + 1, 0))
    case HandleAck(k) =>
      t.(recent := t.recent - {k}, toHost := t.toHost - multiset{k})
    case AckPass(order) =>
      t.(toClient := t.toClient + multiset(InOrder(t.recent, order)),
         recent := AfterPass(t.recent),
         dropped := if |t.recent| > RECENT_PACKETS_SIZE then t.dropped + t.recent.Keys else t.dropped)
    case Receive(pkt) =>
      t.(toClient := t.toClient - multiset{pkt},
         toHost := t.toHost + multiset{pkt.sequenceNumber},
         received := t.received + {pkt.sequenceNumber})
    case LosePacket(pkt) => t.(toClient := t.toClient - multiset{pkt})
    case DuplicatePacket(pkt) => t.(toClient := t.toClient + multiset{pkt})
    case LoseAck(k) => t.(toHost := t.toHost - multiset{k})
    case DuplicateAck(k) => t.(toHost := t.toHost + multiset{k})
  }

  /** The steps can be taken one after the other from t. */
  ghost predicate Runs(s: Session, t: State, steps: seq<Step>)
    requires s.config.Ok()
    decreases steps
  {
    steps == [] || (Enabled(s, t, steps[0]) && Runs(s, Apply(s, t, steps[0]), steps[1..]))
  }

  ghost function After(s: Session, t: State, steps: seq<Step>): State
    requires s.config.Ok() && Runs(s, t, steps)
    decreases steps
  {
    if steps == [] then t else After(s, Apply(s, t, steps[0]), steps[1..])
  }

  /** The number of packets whose sendPacket has returned. */
  function SentCount(s: Session, t: State): nat
    requires s.config.Ok() && t.sender.frame <= |s.frames|
  {
    s.SeqOf(t.sender.frame, t.sender.index)
  }

  ghost predicate SenderOk(s: Session, t: State)
    requires s.Ok()
  {
    && t.sender.frame <= |s.frames|
    && (if t.sender.frame == |s.frames| then t.sender.index == 0 else t.sender.index <= s.Count(t.sender.frame))
    && SentCount(s, t) <= s.Total()
    && (t.sender.Unsaved? ==>
          && s.Valid(t.sender.frame, t.sender.index)
          && SentCount(s, t) < s.Total()
          && t.sender.pkt == s.PacketOf(SentCount(s, t)))
    && t.sequenceNumber == SentCount(s, t) + if t.sender.Unsaved? then 1 else 0
  }

  /** Only packets of the session travel, and only numbers of packets received are acknowledged. */
  ghost predicate NetworkOk(s: Session, t: State)
    requires s.Ok()
  {
    && (forall pkt :: pkt in t.toClient ==> s.Genuine(pkt) && pkt.sequenceNumber < t.sequenceNumber)
    && (forall k :: k in t.toHost ==> k in t.received)
    && (forall k :: k in t.received ==> k < t.sequenceNumber)
  }

  /** Each saved packet is the one its key codes, and no packet is lost silently. */
  ghost predicate RecentOk(s: Session, t: State)
    requires s.Ok() && SenderOk(s, t)
  {
    && (forall k :: k in t.recent ==> k < SentCount(s, t) && t.recent[k] == s.PacketOf(k))
    && (forall k :: 0 <= k < SentCount(s, t) ==> k in t.recent || k in t.received || k in t.dropped)
    && (forall k :: k in t.dropped ==> k < SentCount(s, t))
  }

  ghost predicate Inv(s: Session, t: State) {
    s.Ok() && SenderOk(s, t) && NetworkOk(s, t) && RecentOk(s, t)
  }

  lemma InitKeepsInv(s: Session)
    requires s.Ok()
    ensures Inv(s, Init())
  {
    hide MakePacket, PacketCount, Session.PacketOf;
    PacketsBeforeMono(s, 0, |s.frames|);
    assert s.PacketsBefore(0) == 0;
    assert SenderOk(s, Init());
    assert NetworkOk(s, Init());
    assert RecentOk(s, Init());
  }

  lemma SendKeepsInv(s: Session, t: State)
    requires Inv(s, t) && Enabled(s, t, Send)
    ensures Inv(s, Apply(s, t, Send))
  {
    hide MakePacket, PacketCount;
    NumberOfPacket(s, t.sender.frame, t.sender.index);
    PacketOfNumber(s, SentCount(s, t));
    DwordSmall(t.sequenceNumber + 1);
  }

  lemma SaveKeepsInv(s: Session, t: State)
    requires Inv(s, t) && Enabled(s, t, Save)
    ensures Inv(s, Apply(s, t, Save))
  {
    hide MakePacket, PacketCount, Session.Locate, Session.PacketAt;
    PacketOfNumber(s, SentCount(s, t));
    assert t.sender.pkt.sequenceNumber !in t.recent;
  }

  lemma NextFrameKeepsInv(s: Session, t: State)
    requires Inv(s, t) && Enabled(s, t, NextFrame)
    ensures Inv(s, Apply(s, t, NextFrame))
  {
    hide MakePacket, PacketCount, Session.PacketOf;
    PacketsBeforeMono(s, t.sender.frame + 1, |s.frames|);
  }

  lemma ResentIsGenuine(s: Session, t: State, order: seq<nat>, pkt: Packet)
    requires Inv(s, t) && Visits(order, t.recent) && pkt in InOrder(t.recent, order)
    ensures s.Genuine(pkt) && pkt.sequenceNumber < t.sequenceNumber
  {
    hide MakePacket, PacketCount, Session.Locate, Session.PacketAt, Session.PacketOf, Session.Genuine;
    var j :| 0 <= j < |order| && InOrder(t.recent, order)[j] == pkt;
    assert order[j] in t.recent;
    PacketOfNumber(s, order[j]);
  }

  lemma AckPassKeepsInv(s: Session, t: State, order: seq<nat>)
    requires Inv(s, t) && Enabled(s, t, AckPass(order))
    ensures Inv(s, Apply(s, t, AckPass(order)))
  {
    hide MakePacket, PacketCount, Session.Locate, Session.PacketAt, Session.PacketOf, Session.Genuine, InOrder, Visits;
    var u := Apply(s, t, AckPass(order));
    assert NetworkOk(s, u) by {
      forall pkt | pkt in u.toClient
        ensures s.Genuine(pkt) && pkt.sequenceNumber < u.sequenceNumber
      {
        if pkt !in t.toClient {
          ResentIsGenuine(s, t, order, pkt);
        }
      }
    }
    assert RecentOk(s, u);
  }

  lemma HandleAckKeepsInv(s: Session, t: State, k: nat)
    requires Inv(s, t) && Enabled(s, t, HandleAck(k))
    ensures Inv(s, Apply(s, t, HandleAck(k)))
  {
    hide MakePacket, PacketCount, Session.PacketOf, Session.PacketAt, Session.Genuine;
  }

  /** The host's part of the invariant only gains when the client receives more. */
  lemma SameHost(s: Session, t: State, u: State)
    requires s.Ok() && SenderOk(s, t) && RecentOk(s, t)
    requires u.sender == t.sender && u.sequenceNumber == t.sequenceNumber
    requires u.recent == t.recent && u.dropped == t.dropped && t.received <= u.received
    ensures SenderOk(s, u) && RecentOk(s, u)
  {
    hide MakePacket, PacketCount, Session.PacketOf, Session.PacketAt;
  }

  lemma ReceiveKeepsInv(s: Session, t: State, pkt: Packet)
    requires Inv(s, t) && Enabled(s, t, Receive(pkt))
    ensures Inv(s, Apply(s, t, Receive(pkt)))
  {
    hide MakePacket, PacketCount, Session.PacketOf, Session.PacketAt, Session.Genuine, SenderOk, RecentOk;
    SameHost(s, t, Apply(s, t, Receive(pkt)));
  }

  lemma NetworkStepKeepsInv(s: Session, t: State, step: Step)
    requires Inv(s, t) && Enabled(s, t, step)
    requires step.LosePacket? || step.DuplicatePacket? || step.LoseAck? || step.DuplicateAck?
    ensures Inv(s, Apply(s, t, step))
  {
    hide MakePacket, PacketCount, Session.PacketOf, Session.PacketAt, Session.Genuine, SenderOk, RecentOk;
    SameHost(s, t, Apply(s, t, step));
  }

  lemma StepKeepsInv(s: Session, t: State, step: Step)
    requires Inv(s, t) && Enabled(s, t, step)
    ensures Inv(s, Apply(s, t, step))
  {
    hide MakePacket, PacketCount, Session.PacketOf, Session.PacketAt, Session.Genuine;
    match step
    case Send => SendKeepsInv(s, t);
    case Save => SaveKeepsInv(s, t);
    case NextFrame => NextFrameKeepsInv(s, t);
    case HandleAck(k) => HandleAckKeepsInv(s, t, k);
    case AckPass(order) => AckPassKeepsInv(s, t, order);
    case Receive(pkt) => ReceiveKeepsInv(s, t, pkt);
    case _ => NetworkStepKeepsInv(s, t, step);
  }

  lemma {:induction false} RunKeepsInv(s: Session, t: State, steps: seq<Step>)
    requires Inv(s, t) && Runs(s, t, steps)
    ensures Inv(s, After(s, t, steps))
    decreases steps
  {
    hide Enabled, Apply, SenderOk, NetworkOk, RecentOk;
    if steps != [] {
      StepKeepsInv(s, t, steps[0]);
      RunKeepsInv(s, Apply(s, t, steps[0]), steps[1..]);
    }
  }

  /** Packet k is at the client, or saved byte for byte. */
  ghost predicate Safe(s: Session, t: State, k: nat)
    requires s.Ok() && k < s.Total()
  {
    k in t.received || (k in t.recent && t.recent[k] == s.PacketOf(k))
  }

  /**
    No silent loss: after any run, each packet whose sendPacket returned has been
    received by the client, or is saved byte for byte, or was saved when an
    overflow clear ran. The acknowledgement may be handled before the save.
   */
  lemma NoSilentLoss(s: Session, steps: seq<Step>)
    requires s.Ok() && Runs(s, Init(), steps)
    ensures var t := After(s, Init(), steps);
            && t.sender.frame <= |s.frames| && SentCount(s, t) <= s.Total()
            && (forall k :: 0 <= k < SentCount(s, t) ==> Safe(s, t, k) || k in t.dropped)
            && (forall k :: k in t.recent ==> k < SentCount(s, t) && t.recent[k] == s.PacketOf(k))
  {
    hide Apply, Enabled, Session.PacketOf;
    InitKeepsInv(s);
    RunKeepsInv(s, Init(), steps);
  }

  /** No pass of the run finds more than 200 packets. */
  ghost predicate NeverOverflows(s: Session, t: State, steps: seq<Step>)
    requires s.config.Ok() && Runs(s, t, steps)
    decreases steps
  {
    steps != [] ==>
      && (steps[0].AckPass? ==> |t.recent| <= 200)
      && NeverOverflows(s, Apply(s, t, steps[0]), steps[1..])
  }

  lemma {:induction false} OnlyOverflowDrops(s: Session, t: State, steps: seq<Step>)
    requires s.config.Ok() && Runs(s, t, steps) && NeverOverflows(s, t, steps)
    ensures After(s, t, steps).dropped == t.dropped
    decreases steps
  {
    if steps != [] {
      OnlyOverflowDrops(s, Apply(s, t, steps[0]), steps[1..]);
    }
  }

  /** While no pass finds more than 200 packets, every packet sent is received or still saved. */
  lemma NothingLostWithoutOverflow(s: Session, steps: seq<Step>)
    requires s.Ok() && Runs(s, Init(), steps) && NeverOverflows(s, Init(), steps)
    ensures var t := After(s, Init(), steps);
            && t.sender.frame <= |s.frames| && SentCount(s, t) <= s.Total()
            && forall k :: 0 <= k < SentCount(s, t) ==> Safe(s, t, k)
  {
    hide Apply, Enabled, Safe;
    NoSilentLoss(s, steps);
    OnlyOverflowDrops(s, Init(), steps);
  }

  /** Undisturbed, a send and its save do what sendStream's loop does for one packet. */
  lemma SendThenSave(s: Session, t: State)
    requires s.config.Ok() && Enabled(s, t, Send)
    ensures var h := SentNext(s.config, Sending(t.sequenceNumber, t.recent, []), s.frames[t.sender.frame], t.sender.frame, t.sender.index);
            && Enabled(s, Apply(s, t, Send), Save)
            && Apply(s, Apply(s, t, Send), Save)
               == t.(sender := AtPacket(t.sender.frame, t.sender.index + 1),
                     sequenceNumber := h.sequenceNumber,
                     recent := h.recent,
                     toClient := t.toClient + multiset(h.wire))
  {
    hide MakePacket;
    var pkt := MakePacket(s.config, s.frames[t.sender.frame], t.sender.frame, t.sender.index, t.sequenceNumber);
    assert [] + [pkt] == [pkt];
  }

  /** A pass over at most 200 saved packets discards nothing; over more it discards all of them and no others. */
  lemma PassClearsIff(s: Session, t: State, order: seq<nat>)
    requires s.config.Ok() && Enabled(s, t, AckPass(order))
    ensures var u := Apply(s, t, AckPass(order));
            && (|t.recent| <= 200 ==> u.recent == t.recent && u.dropped == t.dropped)
            && (|t.recent| > 200 ==> u.recent == map[] && forall k :: k in u.dropped <==> k in t.dropped || k in t.recent)
            && u.sender == t.sender && u.sequenceNumber == t.sequenceNumber && u.toHost == t.toHost && u.received == t.received
  {
    hide InOrder;
  }

  /** A pass can be made at any time. */
  lemma PassIsFree(s: Session, t: State) returns (order: seq<nat>)
    requires s.config.Ok()
    ensures Enabled(s, t, AckPass(order))
  {
    order := AnOrderExists(t.recent, t.recent.Keys);
  }

  /**
    The network and the two receivers, one datagram at a time: any datagram in
    flight can be read, lost or duplicated, the client acknowledges what it
    reads, and nothing else changes.
   */
  lemma DatagramsMove(s: Session, t: State, pkt: Packet)
    requires s.config.Ok()
    ensures Enabled(s, t, Receive(pkt)) <==> pkt in t.toClient
    ensures Enabled(s, t, LosePacket(pkt)) <==> pkt in t.toClient
    ensures Enabled(s, t, DuplicatePacket(pkt)) <==> pkt in t.toClient
    ensures pkt in t.toClient ==>
              && Apply(s, t, LosePacket(pkt)) == t.(toClient := t.toClient[pkt := t.toClient[pkt] - 1])
              && Apply(s, t, DuplicatePacket(pkt)) == t.(toClient := t.toClient[pkt := t.toClient[pkt] + 1])
              && Apply(s, t, Receive(pkt))
                 == t.(toClient := t.toClient[pkt := t.toClient[pkt] - 1],
                       toHost := t.toHost[pkt.sequenceNumber := t.toHost[pkt.sequenceNumber] + 1],
                       received := t.received + {pkt.sequenceNumber})
  {
  }

  /** The same of acknowledgements, and the host drops the packet that one names. */
  lemma AcknowledgementsMove(s: Session, t: State, k: nat)
    requires s.config.Ok()
    ensures Enabled(s, t, HandleAck(k)) <==> k in t.toHost
    ensures Enabled(s, t, LoseAck(k)) <==> k in t.toHost
    ensures Enabled(s, t, DuplicateAck(k)) <==> k in t.toHost
    ensures k in t.toHost ==>
              && Apply(s, t, LoseAck(k)) == t.(toHost := t.toHost[k := t.toHost[k] - 1])
              && Apply(s, t, DuplicateAck(k)) == t.(toHost := t.toHost[k := t.toHost[k] + 1])
              && Apply(s, t, HandleAck(k)) == t.(toHost := t.toHost[k := t.toHost[k] - 1], recent := t.recent - {k})
  {
  }

  // ----- Progress of the retransmission -----

  /** A packet once out of the map never comes back, because only a save enlarges the map, under a new number. */
  lemma StepDoesNotRevive(s: Session, t: State, step: Step, k: nat)
    requires Inv(s, t) && Enabled(s, t, step)
    requires k < SentCount(s, t) && k !in t.recent
    ensures var u := Apply(s, t, step); Inv(s, u) && k < SentCount(s, u) && k !in u.recent
  {
    hide MakePacket, PacketCount, Session.PacketAt, Session.PacketOf, Session.Genuine, NetworkOk, RecentOk, InOrder;
    StepKeepsInv(s, t, step);
    SentCountGrows(s, t, step);
    if step.Save? {
      PacketOfNumber(s, SentCount(s, t));
    }
  }

  /** No step but a save enlarges the map; an acknowledgement of a saved packet shrinks it; a pass bounds it. */
  lemma OnlySaveEnlarges(s: Session, t: State, step: Step)
    requires s.config.Ok() && Enabled(s, t, step) && !step.Save?
    ensures var u := Apply(s, t, step);
            && (forall k :: k in u.recent ==> k in t.recent && u.recent[k] == t.recent[k])
            && (step.HandleAck? && step.k in t.recent ==> |u.recent| == |t.recent| - 1)
            && (step.AckPass? ==> |u.recent| <= 200)
  {
    hide MakePacket, PacketCount, InOrder;
    if step.HandleAck? {
      assert Apply(s, t, step).recent.Keys == t.recent.Keys - {step.k};
    }
  }

  /** A save adds the packet just sent, under a number that was not in the map. */
  lemma SaveAddsOne(s: Session, t: State)
    requires Inv(s, t) && Enabled(s, t, Save)
    ensures SentCount(s, t) !in t.recent
    ensures Apply(s, t, Save).recent == t.recent[SentCount(s, t) := s.PacketOf(SentCount(s, t))]
  {
    hide MakePacket, PacketCount, Session.PacketAt, Session.Locate;
    PacketOfNumber(s, SentCount(s, t));
  }

  lemma {:induction false} GoneStaysGone(s: Session, t: State, steps: seq<Step>, k: nat)
    requires Inv(s, t) && Runs(s, t, steps) && k < SentCount(s, t)
    requires k !in t.recent || HandleAck(k) in steps
    ensures k !in After(s, t, steps).recent
    decreases steps
  {
    hide Enabled, Apply, SenderOk, NetworkOk, RecentOk, SentCount;
    if steps != [] {
      var u := Apply(s, t, steps[0]);
      StepKeepsInv(s, t, steps[0]);
      SentCountGrows(s, t, steps[0]);
      if k !in t.recent {
        StepDoesNotRevive(s, t, steps[0], k);
      } else if steps[0] == HandleAck(k) {
        HandledIsGone(s, t, k);
      } else {
        assert HandleAck(k) in steps[1..];
      }
      GoneStaysGone(s, u, steps[1..], k);
    }
  }

  lemma HandledIsGone(s: Session, t: State, k: nat)
    requires s.config.Ok() && Enabled(s, t, HandleAck(k))
    ensures k !in Apply(s, t, HandleAck(k)).recent
  {
  }

  lemma SentCountGrows(s: Session, t: State, step: Step)
    requires Inv(s, t) && Enabled(s, t, step)
    ensures Inv(s, Apply(s, t, step)) && SentCount(s, t) <= SentCount(s, Apply(s, t, step))
  {
    hide MakePacket, PacketCount, Session.PacketOf, Session.PacketAt, NetworkOk, RecentOk;
    StepKeepsInv(s, t, step);
  }

  /**
    If every packet saved at a pass is acknowledged some time after the pass
    then every packet sent before the pass is out of the map.
   */
  lemma AcknowledgedPassDrains(s: Session, t: State, order: seq<nat>, steps: seq<Step>)
    requires Inv(s, t) && Enabled(s, t, AckPass(order)) && Runs(s, Apply(s, t, AckPass(order)), steps)
    requires forall k :: k in t.recent ==> HandleAck(k) in steps
    ensures forall k :: 0 <= k < SentCount(s, t) ==> k !in After(s, Apply(s, t, AckPass(order)), steps).recent
  {
    hide MakePacket, PacketCount, Session.PacketOf, Session.PacketAt;
    var u := Apply(s, t, AckPass(order));
    StepKeepsInv(s, t, AckPass(order));
    forall k | 0 <= k < SentCount(s, t)
      ensures k !in After(s, u, steps).recent
    {
      GoneStaysGone(s, u, steps, k);
    }
  }

  lemma DistinctOccurOnce(pkts: seq<Packet>, x: Packet)
    requires NoDup(pkts)
    ensures multiset(pkts)[x] == if x in pkts then 1 else 0
  {
    if pkts != [] {
      var front, last := pkts[..|pkts| - 1], pkts[|pkts| - 1];
      assert pkts == front + [last];
      DistinctOccurOnce(front, x);
    }
  }

  /** A pass puts one more copy of every saved packet in flight, and of no other packet. */
  lemma PassResendsEachOnce(s: Session, t: State, order: seq<nat>, pkt: Packet)
    requires Inv(s, t) && Enabled(s, t, AckPass(order))
    ensures Apply(s, t, AckPass(order)).toClient[pkt]
         == t.toClient[pkt] + if pkt.sequenceNumber in t.recent && t.recent[pkt.sequenceNumber] == pkt then 1 else 0
  {
    hide MakePacket, PacketCount, Session.PacketAt, Session.Locate;
    var resent := InOrder(t.recent, order);
    forall j | 0 <= j < |resent|
      ensures resent[j].sequenceNumber == order[j]
    {
      assert order[j] in t.recent;
      PacketOfNumber(s, order[j]);
    }
    assert NoDup(resent);
    DistinctOccurOnce(resent, pkt);
    if pkt.sequenceNumber in t.recent && t.recent[pkt.sequenceNumber] == pkt {
      var j :| 0 <= j < |order| && order[j] == pkt.sequenceNumber;
      assert resent[j] == pkt;
    }
  }

  lemma {:induction false} AnOrderExists(recent: map<nat, Packet>, keys: set<nat>) returns (order: seq<nat>)
    requires keys <= recent.Keys
    ensures NoDup(order) && forall k :: k in order <==> k in keys
    decreases keys
  {
    order := [];
    if keys != {} {
      var k :| k in keys;
      var rest := AnOrderExists(recent, keys - {k});
      order := rest + [k];
    }
  }

  /** Whatever the network did so far, a saved packet can still reach the client and leave the map. */
  lemma SavedPacketCanGetThrough(s: Session, t: State, k: nat) returns (steps: seq<Step>)
    requires Inv(s, t) && k in t.recent
    ensures |steps| == 3 && Runs(s, t, steps)
    ensures var u := After(s, t, steps); k in u.received && k !in u.recent && u.sender == t.sender
  {
    hide MakePacket, PacketCount, Session.PacketAt, Session.Locate;
    var order := AnOrderExists(t.recent, t.recent.Keys);
    var pkt := t.recent[k];
    PacketOfNumber(s, k);
    PassResendsEachOnce(s, t, order, pkt);
    hide Session.PacketOf, InOrder, Inv, Apply, Runs, After;
    ReceivedAndHandled(s, Apply(s, t, AckPass(order)), pkt);
    PassKeepsSender(s, t, order);
    steps := [AckPass(order), Receive(pkt), HandleAck(k)];
    ThreeSteps(s, t, steps);
  }

  lemma PassKeepsSender(s: Session, t: State, order: seq<nat>)
    requires s.config.Ok() && Enabled(s, t, AckPass(order))
    ensures Apply(s, t, AckPass(order)).sender == t.sender
  {
  }

  lemma ReceivedAndHandled(s: Session, t: State, pkt: Packet)
    requires s.config.Ok() && pkt in t.toClient
    ensures Enabled(s, t, Receive(pkt))
    ensures Enabled(s, Apply(s, t, Receive(pkt)), HandleAck(pkt.sequenceNumber))
    ensures var u := Apply(s, Apply(s, t, Receive(pkt)), HandleAck(pkt.sequenceNumber));
            pkt.sequenceNumber in u.received && pkt.sequenceNumber !in u.recent && u.sender == t.sender
  {
  }

  lemma ThreeSteps(s: Session, t: State, steps: seq<Step>)
    requires s.config.Ok() && |steps| == 3
    requires Enabled(s, t, steps[0])
    requires Enabled(s, Apply(s, t, steps[0]), steps[1])
    requires Enabled(s, Apply(s, Apply(s, t, steps[0]), steps[1]), steps[2])
    ensures Runs(s, t, steps)
    ensures After(s, t, steps) == Apply(s, Apply(s, Apply(s, t, steps[0]), steps[1]), steps[2])
  {
    hide Enabled, Apply;
    var t1 := Apply(s, t, steps[0]);
    var t2 := Apply(s, t1, steps[1]);
    var t3 := Apply(s, t2, steps[2]);
    assert steps[1..][0] == steps[1] && steps[1..][1..] == steps[2..] && steps[2..][0] == steps[2] && steps[2..][1..] == [];
    assert Runs(s, t3, []) && After(s, t3, []) == t3;
    assert Runs(s, t2, steps[2..]) && After(s, t2, steps[2..]) == t3;
    assert Runs(s, t1, steps[1..]) && After(s, t1, steps[1..]) == t3;
  }
}

/**
  Ending a room (RDIBY/server.cpp, endRoom) and the loops in which the peers
  collect addresses until they are told to leave (RDIBYClient/clienttest.cpp).
  A TCP stream is modelled as the sequence of whole messages sent on it.
 */
module RoomEnding {
  import opened Rooms

  /** msgType and the address in msgData. */
  datatype Msg = Msg(msgType: nat, addr: nat)

  const LEAVE_MSG: nat := 1
  const START_PUNCH_MSG: nat := 3

  function Punch(addr: nat): Msg {
    Msg(START_PUNCH_MSG, addr)
  }

  const LEAVE: Msg := Msg(LEAVE_MSG, 0)

  /** A message buffer filled with zeros. */
  const ZERO: Msg := Msg(0, 0)

  datatype Peer = Peer(sock: nat, addr: nat)

  type Streams = map<nat, seq<Msg>>

  /** What has been sent on a socket. */
  function On(o: Streams, sock: nat): seq<Msg> {
    if sock in o then o[sock] else []
  }

  function Send(o: Streams, sock: nat, msg: Msg): Streams {
    o[sock := On(o, sock) + [msg]]
  }

  /** The host is sent its own address, then those of the first k clients. */
  function HostTold(o: Streams, host: Peer, peers: seq<Peer>, k: nat): Streams
    requires k <= |peers|
  {
    if k == 0 then Send(o, host.sock, Punch(host.addr))
    else Send(HostTold(o, host, peers, k - 1), host.sock, Punch(peers[k - 1].addr))
  }

  /** Each of the first k clients is sent the message for all clients and its own address. */
  function ClientsTold(o: Streams, toClient: Msg, peers: seq<Peer>, k: nat): Streams
    requires k <= |peers|
  {
    if k == 0 then o
    else Send(Send(ClientsTold(o, toClient, peers, k - 1), peers[k - 1].sock, toClient), peers[k - 1].sock, Punch(peers[k - 1].addr))
  }

  lemma ClientsToldNone(o: Streams, toClient: Msg, peers: seq<Peer>)
    ensures ClientsTold(o, toClient, peers, 0) == o
  {
  }

  lemma ClientsToldNext(o: Streams, toClient: Msg, peers: seq<Peer>, k: nat)
    requires k < |peers|
    ensures ClientsTold(o, toClient, peers, k + 1)
         == Send(Send(ClientsTold(o, toClient, peers, k), peers[k].sock, toClient), peers[k].sock, Punch(peers[k].addr))
  {
  }

  /** Each of the first k clients is told to leave. */
  function Dismissed(o: Streams, peers: seq<Peer>, k: nat): Streams
    requires k <= |peers|
  {
    if k == 0 then o else Send(Dismissed(o, peers, k - 1), peers[k - 1].sock, LEAVE)
  }

  function Ended(o: Streams, host: Peer, peers: seq<Peer>, startStreaming: bool): Streams {
    var told := if startStreaming then ClientsTold(HostTold(o, host, peers, |peers|), Punch(host.addr), peers, |peers|) else o;
    Send(Dismissed(told, peers, |peers|), host.sock, LEAVE)
  }

  function PeerOf(c: RoomClient): Peer {
    Peer(c.sock, c.addr)
  }

  function PeersOf(cs: seq<RoomClient>): seq<Peer> {
    seq(|cs|, i requires 0 <= i < |cs| => PeerOf(cs[i]))
  }

  /** endRoom returns true, or follows the null pointer of a room that is not there. */
  datatype Ending = Returned(ok: bool) | FollowedNull

  class ServerManager {
    const roomManager: RoomManager
    /** Everything sendData has put on each socket. */
    var sent: Streams

    constructor ()
      ensures sent == map[] && fresh(roomManager)
    {
      roomManager := new RoomManager();
      sent := map[];
    }

    method SendData(sock: nat, msg: Msg)
      modifies this
      ensures sent == Send(old(sent), sock, msg)
    {
      sent := Send(sent, sock, msg);
    }

    /**
      The host is sent its own address in the buffer that the clients will be sent
      too, then in a loop all the clients' addresses, in one buffer zeroed and
      filled for each.
     */
    method TellHost(host: RoomClient, clients: seq<RoomClient>) returns (msgToClient: Msg)
      modifies this
      ensures msgToClient == Punch(host.addr)
      ensures sent == HostTold(old(sent), PeerOf(host), PeersOf(clients), |clients|)
    {
      ghost var before := sent;
      msgToClient := ZERO;
      var msgToHost := ZERO;
      msgToClient := msgToClient.(msgType := START_PUNCH_MSG);
      msgToHost := msgToHost.(msgType := START_PUNCH_MSG);
      msgToClient := msgToClient.(addr := host.addr);
      SendData(host.sock, msgToClient);
      var i := 0;
      while i < |clients|
        invariant i <= |clients|
        invariant sent == HostTold(before, PeerOf(host), PeersOf(clients), i)
      {
        msgToHost := ZERO;
        msgToHost := msgToHost.(msgType := START_PUNCH_MSG);
        msgToHost := msgToHost.(addr := clients[i].addr);
        SendData(host.sock, msgToHost);
        i := i + 1;
      }
    }

    /** The loop that sends each client the message for all and its own address, and marks it as leaving. */
    method TellClients(msgToClient: Msg, clients: seq<RoomClient>)
      modifies this, clients
      ensures sent == ClientsTold(old(sent), msgToClient, PeersOf(clients), |clients|)
      ensures forall c :: c in clients ==> c.isLeaving
    {
      hide ClientsTold, Send;
      ghost var before := sent;
      ClientsToldNone(before, msgToClient, PeersOf(clients));
      var msgToHost := ZERO;
      var i := 0;
      while i < |clients|
        invariant i <= |clients|
        invariant sent == ClientsTold(before, msgToClient, PeersOf(clients), i)
        invariant forall j :: 0 <= j < i ==> clients[j].isLeaving
      {
        ClientsToldNext(before, msgToClient, PeersOf(clients), i);
        clients[i].isLeaving := true;
        msgToHost := ZERO;
        msgToHost := msgToHost.(msgType := START_PUNCH_MSG);
        msgToHost := msgToHost.(addr := clients[i].addr);
        SendData(clients[i].sock, msgToClient);
        SendData(clients[i].sock, msgToHost);
        i := i + 1;
      }
    }

    /** The loop that sends the clients off. */
    method SendOff(clients: seq<RoomClient>)
      modifies this
      ensures sent == Dismissed(old(sent), PeersOf(clients), |clients|)
    {
      ghost var before := sent;
      var i := 0;
      while i < |clients|
        invariant i <= |clients|
        invariant sent == Dismissed(before, PeersOf(clients), i)
      {
        SendData(clients[i].sock, LEAVE);
        i := i + 1;
      }
    }

    /** The room the id stands for, if there is one. */
    ghost predicate HasRoom(roomID: nat)
      reads this, roomManager
    {
      roomID in roomManager.roomMap && roomManager.roomMap[roomID] != null
    }

    /** endRoom follows the room's pointer unchecked: without a room it leaves a null one behind and goes no further. */
    method EndRoom(roomID: nat, startStreaming: bool) returns (outcome: Ending)
      modifies this, roomManager
      modifies if HasRoom(roomID) then {roomManager.roomMap[roomID].prHost} else {}
      modifies if HasRoom(roomID) then set c | c in roomManager.roomMap[roomID].roomVector else {}
      ensures !old(HasRoom(roomID)) ==>
                outcome == FollowedNull && sent == old(sent) && roomManager.roomMap == Insert(old(roomManager.roomMap), roomID, null)
      ensures old(HasRoom(roomID)) ==>
                var room := old(roomManager.roomMap)[roomID];
                && outcome == Returned(true) && roomManager.roomMap == old(roomManager.roomMap) - {roomID}
                && sent == Ended(old(sent), PeerOf(room.prHost), PeersOf(old(room.roomVector)), startStreaming)
                && room.prHost.isLeaving
                && (startStreaming ==> forall c :: c in old(room.roomVector) ==> c.isLeaving)
                && (!startStreaming ==> forall c :: c in old(room.roomVector) && c != room.prHost ==> c.isLeaving == old(c.isLeaving))
    {
      hide HostTold, ClientsTold, Dismissed, Send;
      var room := roomManager.GetRoomPtr(roomID);
      if room == null {
        return FollowedNull;
      }
      var clients := room.roomVector;
      if startStreaming {
        var msgToClient := TellHost(room.prHost, clients);
        TellClients(msgToClient, clients);
      }
      SendOff(clients);
      room.prHost.isLeaving := true;
      SendData(room.prHost.sock, LEAVE);
      var ok := roomManager.DeleteRoom(roomID);
      outcome := Returned(true);
    }
  }

  // ----- The peers' receive loops -----

  /** The addresses a loop collects, and how many messages it has read when it stops; it blocks if no LEAVE comes. */
  datatype Collected = Left(addrs: seq<nat>, read: nat) | Blocked(addrs: seq<nat>)

  function Collect(msgs: seq<Msg>): Collected {
    if msgs == [] then Blocked([])
    else if msgs[0].msgType == LEAVE_MSG then Left([], 1)
    else
      var here := if msgs[0].msgType == START_PUNCH_MSG then [msgs[0].addr] else [];
      match Collect(msgs[1..])
      case Left(addrs, read) => Left(here + addrs, read + 1)
      case Blocked(addrs) => Blocked(here + addrs)
  }

  /** A collection continued after the addresses got and the messages read so far. */
  function Continue(got: seq<nat>, read: nat, rest: Collected): Collected {
    match rest
    case Left(addrs, more) => Left(got + addrs, read + more)
    case Blocked(addrs) => Blocked(got + addrs)
  }

  lemma CollectNothing()
    ensures Collect([]) == Blocked([])
  {
  }

  /** What reading message i does to a collection. */
  lemma ReadOneMore(msgs: seq<Msg>, i: nat, got: seq<nat>)
    requires i < |msgs|
    ensures var (msg, was, now) := (msgs[i], Collect(msgs[i..]), Collect(msgs[i + 1..]));
            && (msg.msgType == LEAVE_MSG ==> Continue(got, i, was) == Left(got, i + 1))
            && (msg.msgType == START_PUNCH_MSG ==> Continue(got, i, was) == Continue(got + [msg.addr], i + 1, now))
            && (msg.msgType != LEAVE_MSG && msg.msgType != START_PUNCH_MSG ==> Continue(got, i, was) == Continue(got, i + 1, now))
  {
    var now := Collect(msgs[i + 1..]);
    assert msgs[i..][0] == msgs[i] && msgs[i..][1..] == msgs[i + 1..];
    assert got + ([msgs[i].addr] + now.addrs) == got + [msgs[i].addr] + now.addrs;
    assert [] + now.addrs == now.addrs && got + [] == got;
  }

  /** The loop of both test programs, over the messages that arrive. */
  method CollectAddresses(msgs: seq<Msg>) returns (r: Collected)
    ensures r == Collect(msgs)
  {
    hide Collect;
    CollectNothing();
    var on, i := true, 0;
    var clientAddrVec: seq<nat> := [];
    assert msgs[0..] == msgs;
    while on && i < |msgs|
      invariant i <= |msgs|
      invariant on ==> Collect(msgs) == Continue(clientAddrVec, i, Collect(msgs[i..]))
      invariant !on ==> Collect(msgs) == Left(clientAddrVec, i)
    {
      var msgBuffer := msgs[i];
      ReadOneMore(msgs, i, clientAddrVec);
      if msgBuffer.msgType == START_PUNCH_MSG {
        clientAddrVec := clientAddrVec + [msgBuffer.addr];
      }
      if msgBuffer.msgType == LEAVE_MSG {
        on := false;
      }
      i := i + 1;
    }
    assert on ==> msgs[i..] == [] && clientAddrVec + [] == clientAddrVec;
    r := if on then Blocked(clientAddrVec) else Left(clientAddrVec, i);
  }

  /** Addresses and then a LEAVE: the loop collects exactly those addresses and stops on the last message. */
  lemma {:induction false} CollectsUntilLeave(addrs: seq<nat>)
    ensures Collect(Punches(addrs) + [LEAVE]) == Left(addrs, |addrs| + 1)
  {
    if addrs == [] {
      assert Punches(addrs) + [LEAVE] == [LEAVE];
    } else {
      CollectsUntilLeave(addrs[1..]);
      var msgs := Punches(addrs) + [LEAVE];
      assert msgs[1..] == Punches(addrs[1..]) + [LEAVE];
      assert [addrs[0]] + addrs[1..] == addrs;
    }
  }

  /** The addresses of the punch messages, in order. */
  function PunchAddrs(msgs: seq<Msg>): seq<nat> {
    if msgs == [] then []
    else (if msgs[0].msgType == 3 then [msgs[0].addr] else []) + PunchAddrs(msgs[1..])
  }

  /** msgs[k] is the first LEAVE. */
  ghost predicate FirstLeave(msgs: seq<Msg>, k: nat) {
    k < |msgs| && msgs[k].msgType == 1 && forall j :: 0 <= j < k ==> msgs[j].msgType != 1
  }

  /**
    What the loop collects from any stream: it stops exactly if a LEAVE comes,
    at the first one, with the addresses of the punches before it, and otherwise
    waits with those of all punches.
   */
  lemma {:induction false} CollectsUpToFirstLeave(msgs: seq<Msg>)
    ensures Collect(msgs).Left? <==> exists k :: 0 <= k < |msgs| && msgs[k].msgType == 1
    ensures forall k: nat :: FirstLeave(msgs, k) ==> Collect(msgs) == Left(PunchAddrs(msgs[..k]), k + 1)
    ensures Collect(msgs).Blocked? ==> Collect(msgs).addrs == PunchAddrs(msgs)
  {
    if msgs != [] {
      var rest := msgs[1..];
      CollectsUpToFirstLeave(rest);
      assert forall k :: 0 <= k < |rest| ==> rest[k] == msgs[k + 1];
      if msgs[0].msgType != LEAVE_MSG {
        forall k: nat | FirstLeave(msgs, k)
          ensures Collect(msgs) == Left(PunchAddrs(msgs[..k]), k + 1)
        {
          assert FirstLeave(rest, k - 1);
          assert msgs[..k][1..] == rest[..k - 1];
        }
        if exists k :: 0 <= k < |msgs| && msgs[k].msgType == LEAVE_MSG {
          var k :| 0 <= k < |msgs| && msgs[k].msgType == LEAVE_MSG;
          assert rest[k - 1].msgType == LEAVE_MSG;
        }
      }
    }
  }

  function Punches(addrs: seq<nat>): (msgs: seq<Msg>)
    ensures |msgs| == |addrs| && forall i :: 0 <= i < |addrs| ==> msgs[i] == Msg(3, addrs[i])
  {
    seq(|addrs|, i requires 0 <= i < |addrs| => Punch(addrs[i]))
  }

  // ----- What each participant is sent -----

  ghost predicate DistinctSockets(host: Peer, peers: seq<Peer>) {
    && (forall i :: 0 <= i < |peers| ==> peers[i].sock != host.sock)
    && (forall i, j :: 0 <= i < j < |peers| ==> peers[i].sock != peers[j].sock)
  }

  function Addrs(peers: seq<Peer>): seq<nat> {
    seq(|peers|, i requires 0 <= i < |peers| => peers[i].addr)
  }

  /** The addresses the host has been sent after k clients. */
  function HostAddrs(host: Peer, peers: seq<Peer>, k: nat): (addrs: seq<nat>)
    requires k <= |peers|
    ensures |addrs| == k + 1
  {
    if k == 0 then [host.addr] else HostAddrs(host, peers, k - 1) + [peers[k - 1].addr]
  }

  lemma {:induction false} HostAddrsAre(host: Peer, peers: seq<Peer>, k: nat)
    requires k <= |peers|
    ensures HostAddrs(host, peers, k) == [host.addr] + Addrs(peers[..k])
  {
    if k > 0 {
      HostAddrsAre(host, peers, k - 1);
      assert Addrs(peers[..k]) == Addrs(peers[..k - 1]) + [peers[k - 1].addr];
    }
  }

  lemma {:induction false} HostToldOn(o: Streams, host: Peer, peers: seq<Peer>, k: nat, sock: nat)
    requires k <= |peers|
    ensures On(HostTold(o, host, peers, k), sock)
         == if sock == host.sock then On(o, sock) + Punches(HostAddrs(host, peers, k)) else On(o, sock)
  {
    if k == 0 {
      assert Punches([host.addr]) == [Punch(host.addr)];
    } else {
      HostToldOn(o, host, peers, k - 1, sock);
      PunchOneMore(On(o, sock), HostAddrs(host, peers, k - 1), peers[k - 1].addr);
    }
  }

  lemma PunchOneMore(before: seq<Msg>, addrs: seq<nat>, addr: nat)
    ensures before + Punches(addrs + [addr]) == before + Punches(addrs) + [Punch(addr)]
  {
  }

  lemma {:induction false} ClientsToldOn(o: Streams, host: Peer, peers: seq<Peer>, k: nat, sock: nat)
    requires k <= |peers| && DistinctSockets(host, peers)
    ensures (forall i :: 0 <= i < k ==> peers[i].sock != sock) ==> On(ClientsTold(o, Punch(host.addr), peers, k), sock) == On(o, sock)
    ensures forall i :: 0 <= i < k && peers[i].sock == sock ==>
              On(ClientsTold(o, Punch(host.addr), peers, k), sock) == On(o, sock) + [Punch(host.addr), Punch(peers[i].addr)]
  {
    if k > 0 {
      ClientsToldOn(o, host, peers, k - 1, sock);
      assert On(o, sock) + [Punch(host.addr)] + [Punch(peers[k - 1].addr)] == On(o, sock) + [Punch(host.addr), Punch(peers[k - 1].addr)];
    }
  }

  lemma {:induction false} DismissedOn(o: Streams, host: Peer, peers: seq<Peer>, k: nat, sock: nat)
    requires k <= |peers| && DistinctSockets(host, peers)
    ensures (forall i :: 0 <= i < k ==> peers[i].sock != sock) ==> On(Dismissed(o, peers, k), sock) == On(o, sock)
    ensures (exists i :: 0 <= i < k && peers[i].sock == sock) ==> On(Dismissed(o, peers, k), sock) == On(o, sock) + [LEAVE]
  {
    if k > 0 {
      DismissedOn(o, host, peers, k - 1, sock);
    }
  }

  /** What endRoom(id, true) adds to the host's stream. */
  lemma EndedOnHost(o: Streams, host: Peer, peers: seq<Peer>)
    requires DistinctSockets(host, peers)
    ensures On(Ended(o, host, peers, true), host.sock) == On(o, host.sock) + (Punches([host.addr] + Addrs(peers)) + [Msg(1, 0)])
  {
    hide Punches, HostTold, ClientsTold, Dismissed;
    var told := HostTold(o, host, peers, |peers|);
    HostToldOn(o, host, peers, |peers|, host.sock);
    ClientsToldOn(told, host, peers, |peers|, host.sock);
    DismissedOn(ClientsTold(told, Punch(host.addr), peers, |peers|), host, peers, |peers|, host.sock);
    HostAddrsAre(host, peers, |peers|);
    assert peers[..|peers|] == peers;
  }

  /** What it adds to the stream of client i. */
  lemma EndedOnClient(o: Streams, host: Peer, peers: seq<Peer>, i: nat)
    requires DistinctSockets(host, peers) && i < |peers|
    ensures On(Ended(o, host, peers, true), peers[i].sock)
         == On(o, peers[i].sock) + (Punches([host.addr, peers[i].addr]) + [Msg(1, 0)])
  {
    assert Punches([host.addr, peers[i].addr]) == [Punch(host.addr), Punch(peers[i].addr)];
    hide Punches, HostTold, ClientsTold, Dismissed;
    var told := HostTold(o, host, peers, |peers|);
    HostToldOn(o, host, peers, |peers|, peers[i].sock);
    ClientsToldOn(told, host, peers, |peers|, peers[i].sock);
    DismissedOn(ClientsTold(told, Punch(host.addr), peers, |peers|), host, peers, |peers|, peers[i].sock);
  }

  /** It sends nothing to anybody outside the room, whether or not streaming starts. */
  lemma EndedOnOthers(o: Streams, host: Peer, peers: seq<Peer>, startStreaming: bool, sock: nat)
    requires DistinctSockets(host, peers)
    requires sock != host.sock && forall i :: 0 <= i < |peers| ==> peers[i].sock != sock
    ensures On(Ended(o, host, peers, startStreaming), sock) == On(o, sock)
  {
    hide Punches, HostTold, ClientsTold, Dismissed;
    var told := HostTold(o, host, peers, |peers|);
    HostToldOn(o, host, peers, |peers|, sock);
    ClientsToldOn(told, host, peers, |peers|, sock);
    DismissedOn(ClientsTold(told, Punch(host.addr), peers, |peers|), host, peers, |peers|, sock);
    DismissedOn(o, host, peers, |peers|, sock);
  }

  /** Without streaming everybody is sent a LEAVE and no address. */
  lemma ClosedRoomOnlyLeaves(o: Streams, host: Peer, peers: seq<Peer>)
    requires DistinctSockets(host, peers)
    ensures On(Ended(o, host, peers, false), host.sock) == On(o, host.sock) + [Msg(1, 0)]
    ensures forall i :: 0 <= i < |peers| ==> On(Ended(o, host, peers, false), peers[i].sock) == On(o, peers[i].sock) + [Msg(1, 0)]
  {
    DismissedOn(o, host, peers, |peers|, host.sock);
    forall i | 0 <= i < |peers|
      ensures On(Ended(o, host, peers, false), peers[i].sock) == On(o, peers[i].sock) + [LEAVE]
    {
      DismissedOn(o, host, peers, |peers|, peers[i].sock);
    }
  }

  /**
    endRoom(id, true) composed with the peers' loops, when nothing unread was on
    the sockets: the host's loop collects its own address and every client's in
    join order, each client's loop the host's address and its own, and every
    loop ends on its last message, the only LEAVE.
   */
  lemma PeersLearnTheRoom(o: Streams, host: Peer, peers: seq<Peer>)
    requires DistinctSockets(host, peers)
    requires On(o, host.sock) == [] && forall i :: 0 <= i < |peers| ==> On(o, peers[i].sock) == []
    ensures var e := Ended(o, host, peers, true);
            && Collect(On(e, host.sock)) == Left([host.addr] + Addrs(peers), |On(e, host.sock)|)
            && (forall i :: 0 <= i < |peers| ==>
                  Collect(On(e, peers[i].sock)) == Left([host.addr, peers[i].addr], |On(e, peers[i].sock)|))
  {
    hide Ended, Collect, Punches, DistinctSockets;
    var e := Ended(o, host, peers, true);
    EndedOnHost(o, host, peers);
    assert On(e, host.sock) == Punches([host.addr] + Addrs(peers)) + [LEAVE];
    CollectsUntilLeave([host.addr] + Addrs(peers));
    forall i | 0 <= i < |peers|
      ensures Collect(On(e, peers[i].sock)) == Left([host.addr, peers[i].addr], |On(e, peers[i].sock)|)
    {
      EndedOnClient(o, host, peers, i);
      assert On(e, peers[i].sock) == Punches([host.addr, peers[i].addr]) + [LEAVE];
      CollectsUntilLeave([host.addr, peers[i].addr]);
    }
  }
}

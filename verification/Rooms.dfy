/**
  The server's map of rooms (RDIBY/room.cpp). insert never overwrites, and
  operator[] inserts a null room for an id that is absent; what a lookup gives
  therefore depends on which call touched the id first.
 */
module Rooms {
  import opened Words

  class RoomClient {
    const sock: nat
    const addr: nat
    var isLeaving: bool

    constructor (sock: nat, addr: nat)
      ensures this.sock == sock && this.addr == addr && !isLeaving
    {
      this.sock, this.addr := sock, addr;
      isLeaving := false;
    }
  }

  class Room {
    const prHost: RoomClient
    var roomVector: seq<RoomClient>

    constructor (prHost: RoomClient)
      ensures this.prHost == prHost && roomVector == []
    {
      this.prHost := prHost;
      roomVector := [];
    }
  }

  class RoomManager {
    var roomMap: map<nat, Room?>

    constructor ()
      ensures roomMap == map[]
    {
      roomMap := map[];
    }

    method CreateNewRoom(roomID: nat, room: Room?) returns (ok: bool)
      modifies this
      ensures ok && roomMap == Insert(old(roomMap), roomID, room)
    {
      if roomID !in roomMap {
        roomMap := roomMap[roomID := room];
      }
      ok := true;
    }

    method DeleteRoom(roomID: nat) returns (ok: bool)
      modifies this
      ensures ok && roomMap == old(roomMap) - {roomID}
    {
      roomMap := roomMap - {roomID};
      ok := true;
    }

    /** operator[] on an absent id leaves a null room behind. */
    method GetRoomPtr(roomID: nat) returns (room: Room?)
      modifies this
      ensures roomMap == Insert(old(roomMap), roomID, null) && room == roomMap[roomID]
    {
      if roomID !in roomMap {
        roomMap := roomMap[roomID := null];
      }
      room := roomMap[roomID];
    }

    method AddClientToRoom(roomID: nat, pClient: RoomClient?) returns (ok: bool)
      modifies this
      modifies if roomID in roomMap && roomMap[roomID] != null then {roomMap[roomID]} else {}
      ensures roomMap == Insert(old(roomMap), roomID, null)
      ensures ok <==> pClient != null && roomMap[roomID] != null
      ensures ok ==> roomMap[roomID].roomVector == old(if roomID in roomMap && roomMap[roomID] != null then roomMap[roomID].roomVector else []) + [pClient]
      ensures !ok && roomID in old(roomMap) && old(roomMap)[roomID] != null ==> unchanged(roomMap[roomID])
    {
      var ptrRoom := GetRoomPtr(roomID);
      if pClient == null || ptrRoom == null {
        return false;
      }
      ptrRoom.roomVector := ptrRoom.roomVector + [pClient];
      ok := true;
    }
  }

  /** unordered_map::insert. */
  function Insert<R>(m: map<nat, R>, id: nat, r: R): map<nat, R> {
    if id in m then m else m[id := r]
  }

  // ----- What a sequence of calls leaves in the map -----

  /** Touch is getRoomPtr or addClientToRoom; None is a null room. */
  datatype Op<R> = Create(id: nat, room: Option<R>) | Delete(id: nat) | Touch(id: nat)

  function ApplyOp<R>(m: map<nat, Option<R>>, op: Op<R>): map<nat, Option<R>> {
    match op
    case Create(id, room) => Insert(m, id, room)
    case Delete(id) => m - {id}
    case Touch(id) => Insert(m, id, None)
  }

  function MapAfter<R>(ops: seq<Op<R>>): map<nat, Option<R>> {
    if ops == [] then map[] else ApplyOp(MapAfter(ops[..|ops| - 1]), ops[|ops| - 1])
  }

  /** The room a lookup of the id returns. */
  function Resolve<R>(ops: seq<Op<R>>, id: nat): Option<R> {
    if id in MapAfter(ops) then MapAfter(ops)[id] else None
  }

  /** ops[i] is the first call that touched the id since it was last deleted. */
  ghost predicate FirstTouch<R>(ops: seq<Op<R>>, id: nat, i: nat) {
    && i < |ops| && ops[i].id == id && !ops[i].Delete?
    && (forall d :: i < d < |ops| ==> ops[d] != Delete(id))
    && (forall j :: 0 <= j < i && ops[j].id == id && !ops[j].Delete? ==> exists d :: j < d < i && ops[d] == Delete(id))
  }

  /** No call touched the id since it was last deleted. */
  ghost predicate Untouched<R>(ops: seq<Op<R>>, id: nat) {
    forall j :: 0 <= j < |ops| && ops[j].id == id && !ops[j].Delete? ==> exists d :: j < d < |ops| && ops[d] == Delete(id)
  }

  function RoomOf<R>(op: Op<R>): Option<R> {
    if op.Create? then op.room else None
  }

  lemma {:induction false} FirstTouchDecides<R>(ops: seq<Op<R>>, id: nat)
    ensures id !in MapAfter(ops) <==> Untouched(ops, id)
    ensures forall i: nat :: FirstTouch(ops, id, i) ==> id in MapAfter(ops) && MapAfter(ops)[id] == RoomOf(ops[i])
    ensures id in MapAfter(ops) ==> exists i: nat :: FirstTouch(ops, id, i)
  {
    if ops != [] {
      var front, last := ops[..|ops| - 1], ops[|ops| - 1];
      FirstTouchDecides(front, id);
      assert forall j :: 0 <= j < |front| ==> front[j] == ops[j];
      if last.id == id && last.Delete? {
        DeleteUntouches(front, id);
        assert ops == front + [Delete(id)];
      } else if last.id == id && Untouched(front, id) {
        TouchIsFirst(front, last);
        assert ops == front + [last];
      } else {
        TouchChangesNothing(front, last, id);
        assert ops == front + [last];
      }
    }
  }

  lemma DeleteUntouches<R>(front: seq<Op<R>>, id: nat)
    ensures Untouched(front + [Delete(id)], id)
    ensures forall i: nat :: !FirstTouch(front + [Delete(id)], id, i)
  {
    var ops: seq<Op<R>> := front + [Delete(id)];
    assert ops[|front|] == Delete(id);
  }

  lemma TouchIsFirst<R>(front: seq<Op<R>>, last: Op<R>)
    requires !last.Delete? && Untouched(front, last.id)
    ensures FirstTouch(front + [last], last.id, |front|)
    ensures forall i: nat :: FirstTouch(front + [last], last.id, i) ==> i == |front|
    ensures !Untouched(front + [last], last.id)
  {
    var ops := front + [last];
    var id := last.id;
    assert ops[|front|] == last;
    forall j | 0 <= j < |front| && ops[j].id == id && !ops[j].Delete?
      ensures exists d :: j < d < |front| && ops[d] == Delete(id)
    {
      assert front[j] == ops[j];
      var d :| j < d < |front| && front[d] == Delete(id);
      assert ops[d] == Delete(id);
    }
  }

  lemma TouchChangesNothing<R>(front: seq<Op<R>>, last: Op<R>, id: nat)
    requires last.id != id || (!last.Delete? && !Untouched(front, id))
    ensures Untouched(front + [last], id) <==> Untouched(front, id)
    ensures forall i: nat :: i < |front| ==> (FirstTouch(front + [last], id, i) <==> FirstTouch(front, id, i))
    ensures !FirstTouch(front + [last], id, |front|)
  {
    var ops := front + [last];
    assert forall j :: 0 <= j < |front| ==> ops[j] == front[j];
    assert ops[|front|] == last;
  }

  /**
    A room id resolves to a room if and only if the first call that touched it
    since its last deletion was the creation of that very room.
   */
  lemma ResolvesIff<R>(ops: seq<Op<R>>, id: nat, r: R)
    ensures Resolve(ops, id) == Some(r) <==> exists i: nat :: FirstTouch(ops, id, i) && ops[i] == Create(id, Some(r))
  {
    FirstTouchDecides(ops, id);
    if Resolve(ops, id) == Some(r) {
      var i: nat :| FirstTouch(ops, id, i);
      assert MapAfter(ops)[id] == RoomOf(ops[i]);
    }
  }

  /** A room created after a client has asked for its id is lost, although the creation reports success. */
  lemma CreationAfterProbeIsLost<R>(ops: seq<Op<R>>, id: nat, r: R)
    requires Untouched(ops, id)
    ensures Resolve(ops + [Create(id, Some(r))], id) == Some(r)
    ensures Resolve(ops + [Touch(id), Create(id, Some(r))], id) == None
  {
    FirstTouchDecides(ops, id);
    var a := ops + [Create(id, Some(r))];
    assert a[..|ops|] == ops && MapAfter(a) == Insert(MapAfter(ops), id, Some(r));
    var probed: seq<Op<R>> := ops + [Touch(id)];
    assert probed[..|ops|] == ops && MapAfter(probed) == Insert(MapAfter(ops), id, None);
    var b := ops + [Touch(id), Create(id, Some(r))];
    assert b[..|probed|] == probed && MapAfter(b) == Insert(MapAfter(probed), id, Some(r));
  }
}

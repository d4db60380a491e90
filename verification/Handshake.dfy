/**
  The first exchange between a client and the server. The client writes its
  names into fixed fields of a record (RDIBY/client.cpp); the server reads them
  back as NUL-terminated strings (RDIBY/server.cpp). The record is modelled as
  the 52 bytes it occupies, so a read that finds no NUL in its field goes on
  into the next one.
 */
module Handshake {
  import opened Words

  type Text = seq<byte>

  datatype Client = Client(name: Text, roomName: Text, roomPassword: Text, isHost: bool)

  const ROOM_NAME: nat := 0
  const CLIENT_NAME: nat := 16
  const ROOM_PASSWORD: nat := 32
  const CLIENT_NAME_LENGTH: nat := 48
  const ROOM_NAME_LENGTH: nat := 49
  const ROOM_PASSWORD_LENGTH: nat := 50
  const IS_HOST: nat := 51
  const RECORD: nat := 52

  /** What the client accepts. The prompts say 15 letters; the test lets 16 pass. */
  predicate Accepted(c: Client) {
    |c.name| <= 16 && |c.roomName| <= 16 && |c.roomPassword| <= 16
  }

  function TextByte(text: Text, j: nat, otherwise: byte): byte {
    if j < |text| then text[j] else otherwise
  }

  /** Byte j of the record once the client has filled it in over the record it received. */
  function RecordByte(received: seq<byte>, c: Client, j: nat): byte
    requires |received| == RECORD && Accepted(c) && j < RECORD
  {
    if j < 16 then TextByte(c.roomName, j, received[j])
    else if j < 32 then TextByte(c.name, j - 16, received[j])
    else if j < 48 then TextByte(c.roomPassword, j - 32, received[j])
    else if j == CLIENT_NAME_LENGTH then |c.name| as byte
    else if j == ROOM_NAME_LENGTH then |c.roomName| as byte
    else if j == ROOM_PASSWORD_LENGTH then |c.roomPassword| as byte
    else if c.isHost then 1 else 0
  }

  function Encode(received: seq<byte>, c: Client): (rec: seq<byte>)
    requires |received| == RECORD && Accepted(c)
    ensures |rec| == RECORD
  {
    seq(RECORD, j requires 0 <= j < RECORD => RecordByte(received, c, j))
  }

  /** The record the server sends first. */
  const GREETING: seq<byte> := seq(RECORD, _ => 0)

  /** A text and its length written into the record. */
  function WithField(rec: seq<byte>, at: nat, text: Text, lengthAt: nat): (r: seq<byte>)
    requires at + |text| <= |rec| && lengthAt < |rec| && |text| <= 16
    ensures |r| == |rec|
  {
    Overwrite(rec, at, text)[lengthAt := |text| as byte]
  }

  /** The writes of the client one after the other, each name followed by its length. */
  function Written(received: seq<byte>, c: Client): (rec: seq<byte>)
    requires |received| == RECORD && Accepted(c)
    ensures |rec| == RECORD
  {
    var named := WithField(received, CLIENT_NAME, c.name, CLIENT_NAME_LENGTH);
    var roomed := WithField(named, ROOM_NAME, c.roomName, ROOM_NAME_LENGTH);
    var locked := WithField(roomed, ROOM_PASSWORD, c.roomPassword, ROOM_PASSWORD_LENGTH);
    locked[IS_HOST := if c.isHost then 1 else 0]
  }

  lemma WithFieldAt(rec: seq<byte>, at: nat, text: Text, lengthAt: nat, j: nat)
    requires at + |text| <= |rec| && lengthAt < |rec| && |text| <= 16 && j < |rec|
    ensures WithField(rec, at, text, lengthAt)[j]
         == if j == lengthAt then |text| as byte else if at <= j < at + |text| then text[j - at] else rec[j]
  {
  }

  /** No write disturbs another field. */
  lemma WrittenIsEncode(received: seq<byte>, c: Client)
    requires |received| == RECORD && Accepted(c)
    ensures Written(received, c) == Encode(received, c)
  {
    hide WithField;
    var named := WithField(received, CLIENT_NAME, c.name, CLIENT_NAME_LENGTH);
    var roomed := WithField(named, ROOM_NAME, c.roomName, ROOM_NAME_LENGTH);
    forall j | 0 <= j < RECORD
      ensures Written(received, c)[j] == RecordByte(received, c, j)
    {
      WithFieldAt(received, CLIENT_NAME, c.name, CLIENT_NAME_LENGTH, j);
      WithFieldAt(named, ROOM_NAME, c.roomName, ROOM_NAME_LENGTH, j);
      WithFieldAt(roomed, ROOM_PASSWORD, c.roomPassword, ROOM_PASSWORD_LENGTH, j);
    }
    hide RecordByte, Written;
  }

  /** The loop that copies a text into a field character by character, and the length after it. */
  method PutField(fsi: array<byte>, at: nat, text: Text, lengthAt: nat)
    requires at + |text| <= fsi.Length && lengthAt < fsi.Length && |text| <= 16
    modifies fsi
    ensures fsi[..] == WithField(old(fsi[..]), at, text, lengthAt)
  {
    ghost var before := fsi[..];
    var i := 0;
    while i < |text|
      invariant i <= |text|
      invariant forall j :: 0 <= j < fsi.Length ==> fsi[j] == if at <= j < at + i then text[j - at] else before[j]
    {
      fsi[at + i] := text[i];
      i := i + 1;
    }
    assert fsi[..] == Overwrite(before, at, text);
    fsi[lengthAt] := |text| as byte;
  }

  /** What the record holds, byte for byte. */
  lemma EncodedFields(received: seq<byte>, c: Client)
    requires |received| == 52 && Accepted(c)
    ensures var rec := Encode(received, c);
            && |rec| == 52
            && rec[..|c.roomName|] == c.roomName
            && rec[16..16 + |c.name|] == c.name
            && rec[32..32 + |c.roomPassword|] == c.roomPassword
            && rec[48] == |c.name| as byte
            && rec[49] == |c.roomName| as byte
            && rec[50] == |c.roomPassword| as byte
            && rec[51] == if c.isHost then 1 else 0
  {
  }

  lemma WrittenInSteps(received: seq<byte>, c: Client)
    requires |received| == RECORD && Accepted(c)
    ensures Written(received, c)
         == WithField(WithField(WithField(received, CLIENT_NAME, c.name, CLIENT_NAME_LENGTH), ROOM_NAME, c.roomName, ROOM_NAME_LENGTH),
                      ROOM_PASSWORD, c.roomPassword, ROOM_PASSWORD_LENGTH)[IS_HOST := if c.isHost then 1 else 0]
  {
    hide WithField;
  }

  /** firstServerInteraction: refuse a long name, otherwise fill in the received record and send it. */
  method FirstServerInteraction(c: Client, received: seq<byte>) returns (sent: Option<seq<byte>>)
    requires |received| == RECORD
    ensures sent == if Accepted(c) then Some(Encode(received, c)) else None
    ensures sent.None? <==> |c.name| > 16 || |c.roomName| > 16 || |c.roomPassword| > 16
    ensures sent.Some? ==>
              && |sent.value| == 52
              && sent.value[..|c.roomName|] == c.roomName
              && sent.value[16..16 + |c.name|] == c.name
              && sent.value[32..32 + |c.roomPassword|] == c.roomPassword
              && sent.value[48] == |c.name| as byte
              && sent.value[49] == |c.roomName| as byte
              && sent.value[50] == |c.roomPassword| as byte
              && sent.value[51] == if c.isHost then 1 else 0
  {
    if |c.name| > 16 || |c.roomName| > 16 || |c.roomPassword| > 16 {
      return None;
    }
    EncodedFields(received, c);
    hide Encode, RecordByte, WithField, Written;
    var fsi := new byte[RECORD](j requires 0 <= j < RECORD => received[j]);
    assert fsi[..] == received;
    PutField(fsi, CLIENT_NAME, c.name, CLIENT_NAME_LENGTH);
    PutField(fsi, ROOM_NAME, c.roomName, ROOM_NAME_LENGTH);
    PutField(fsi, ROOM_PASSWORD, c.roomPassword, ROOM_PASSWORD_LENGTH);
    fsi[IS_HOST] := if c.isHost then 1 else 0;
    WrittenIsEncode(received, c);
    sent := Some(fsi[..]);
    WrittenInSteps(received, c);
  }

  /** std::string(char*): the bytes up to the first NUL, or nothing if the record ends before one. */
  function ReadString(rec: seq<byte>, at: nat): Option<Text>
    decreases |rec| - at
  {
    if at >= |rec| then None
    else if rec[at] == 0 then Some([])
    else
      match ReadString(rec, at + 1)
      case None => None
      case Some(rest) => Some([rec[at]] + rest)
  }

  predicate NulFree(t: Text) {
    0 !in t
  }

  /** A read returns exactly the text that is there, free of NULs, before a NUL. */
  lemma {:induction false} ReadStringIff(rec: seq<byte>, at: nat, t: Text)
    ensures ReadString(rec, at) == Some(t)
       <==> at + |t| < |rec| && rec[at..at + |t|] == t && NulFree(t) && rec[at + |t|] == 0
    decreases |rec| - at
  {
    if at < |rec| {
      if t != [] {
        ReadStringIff(rec, at + 1, t[1..]);
        assert t == [t[0]] + t[1..];
        if at + |t| < |rec| {
          assert rec[at..at + |t|] == [rec[at]] + rec[at + 1..at + 1 + |t[1..]|];
        }
        if ReadString(rec, at) == Some(t) {
          assert ReadString(rec, at + 1) == Some(t[1..]);
        }
      }
    }
  }

  /** A field of the record holds its text, and the byte after it decides how the text reads back. */
  lemma FieldReadsBackIff(c: Client, at: nat, t: Text)
    requires Accepted(c) && |t| <= 16
    requires (at, t) in {(ROOM_NAME, c.roomName), (CLIENT_NAME, c.name), (ROOM_PASSWORD, c.roomPassword)}
    ensures ReadString(Encode(GREETING, c), at) == Some(t) <==> NulFree(t) && Encode(GREETING, c)[at + |t|] == 0
  {
    var rec := Encode(GREETING, c);
    ReadStringIff(rec, at, t);
    assert rec[at..at + |t|] == t;
  }

  /**
    The exact condition under which each string survives the record: it has no
    NUL, and it leaves room for one or the byte after its field happens to be
    zero. So 15 characters always survive; 16 are accepted and may not.
   */
  lemma HandshakeSurvivesIff(c: Client)
    requires Accepted(c)
    ensures ReadString(Encode(GREETING, c), ROOM_NAME) == Some(c.roomName)
       <==> NulFree(c.roomName) && (|c.roomName| < 16 || c.name == [] || c.name[0] == 0)
    ensures ReadString(Encode(GREETING, c), CLIENT_NAME) == Some(c.name)
       <==> NulFree(c.name) && (|c.name| < 16 || c.roomPassword == [] || c.roomPassword[0] == 0)
    ensures ReadString(Encode(GREETING, c), ROOM_PASSWORD) == Some(c.roomPassword)
       <==> NulFree(c.roomPassword) && (|c.roomPassword| < 16 || c.name == [])
    ensures Encode(GREETING, c)[IS_HOST] != 0 <==> c.isHost
  {
    hide ReadString, NulFree;
    FieldReadsBackIff(c, ROOM_NAME, c.roomName);
    FieldReadsBackIff(c, CLIENT_NAME, c.name);
    FieldReadsBackIff(c, ROOM_PASSWORD, c.roomPassword);
  }

  /** The names the prompts ask for. */
  predicate Prompted(c: Client) {
    && |c.name| <= 15 && NulFree(c.name)
    && |c.roomName| <= 15 && NulFree(c.roomName)
    && |c.roomPassword| <= 15 && NulFree(c.roomPassword)
  }

  /** Names within the prompts' limits all survive. */
  lemma PromptedNamesSurvive(c: Client)
    requires |c.name| <= 15 && |c.roomName| <= 15 && |c.roomPassword| <= 15
    requires NulFree(c.name) && NulFree(c.roomName) && NulFree(c.roomPassword)
    ensures Prompted(c)
    ensures ReadString(Encode(GREETING, c), 0) == Some(c.roomName)
    ensures ReadString(Encode(GREETING, c), 16) == Some(c.name)
    ensures ReadString(Encode(GREETING, c), 32) == Some(c.roomPassword)
  {
    HandshakeSurvivesIff(c);
  }

  /** roomID: std::hash of the room name the server read. */
  function RoomKey(hash: Text -> nat, rec: seq<byte>): Option<nat> {
    match ReadString(rec, ROOM_NAME)
    case None => None
    case Some(t) => Some(hash(t))
  }

  /**
    Within the prompts' limits peers that type the same room name get the same
    room key, whatever the hash, and the server tells different names apart.
   */
  lemma SameNameSameRoom(hash: Text -> nat, a: Client, b: Client)
    requires Prompted(a) && Prompted(b)
    ensures RoomKey(hash, Encode(GREETING, a)) == Some(hash(a.roomName))
    ensures a.roomName == b.roomName ==> RoomKey(hash, Encode(GREETING, a)) == RoomKey(hash, Encode(GREETING, b))
    ensures ReadString(Encode(GREETING, a), ROOM_NAME) == ReadString(Encode(GREETING, b), ROOM_NAME) ==> a.roomName == b.roomName
  {
    HandshakeSurvivesIff(a);
    HandshakeSurvivesIff(b);
  }

  /** A 16-character room name is accepted but read back with the client's name appended. */
  lemma LongRoomNameRunsOn(c: Client)
    requires Accepted(c) && |c.roomName| == 16 && NulFree(c.roomName)
    requires 0 < |c.name| < 16 && NulFree(c.name)
    ensures ReadString(Encode(GREETING, c), ROOM_NAME) == Some(c.roomName + c.name)
  {
    var rec := Encode(GREETING, c);
    ReadStringIff(rec, ROOM_NAME, c.roomName + c.name);
    assert rec[ROOM_NAME..ROOM_NAME + |c.roomName + c.name|] == c.roomName + c.name;
  }
}

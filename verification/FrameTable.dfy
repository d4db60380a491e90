/**
  activeFrames as the client keeps it: a map of frame buffers that the consumer
  fills in place and the decoder looks up and erases (VideoClient/main.cpp).
 */
module FrameTable {
  import opened Words
  import opened Arithmetic
  import opened Packets
  import opened Reassembly

  class FrameBuffer {
    var chunks: array<byte>
    var totalSize: nat
    var expectedSize: nat
    var frameNumber: nat
    var totalPackets: nat

    ghost function Value(): Buffer
      reads this, chunks
    {
      Buffer(chunks[..], totalSize, expectedSize, frameNumber, totalPackets)
    }

    constructor ()
      ensures Value() == EMPTY && fresh(chunks)
    {
      chunks := new byte[0];
      totalSize, expectedSize, frameNumber, totalPackets := 0, 0, 0, 0;
    }

    /** memcpy_s into chunks. */
    method CopyIn(at: nat, data: seq<byte>)
      requires at + |data| <= chunks.Length
      modifies chunks
      ensures chunks[..] == Overwrite(old(chunks[..]), at, data)
    {
      forall j | 0 <= j < |data| {
        chunks[at + j] := data[j];
      }
    }

    /** The consumer's work on one stream packet: size the buffer on first use, count, copy. */
    method Deliver(c: Config, pkt: Packet)
      requires Acceptable(c, Value(), pkt)
      modifies this, chunks
      ensures Value() == Absorb(c, old(Value()), pkt)
      ensures chunks == old(chunks) || fresh(chunks)
    {
      hide Dword, Times;
      if chunks.Length == 0 {
        expectedSize := pkt.slidingWindow;
        frameNumber := pkt.frameNumber;
        chunks := new byte[expectedSize](_ => 0);
        assert chunks[..] == Zeros(expectedSize);
      }
      totalPackets := Dword(totalPackets + 1);
      totalSize := Dword(totalSize + (pkt.size - c.header));
      CopyIn(Times(pkt.offset, c.Payload()), pkt.payload);
    }
  }

  class ActiveFrames {
    var table: map<nat, FrameBuffer>

    /** Distinct entries share no storage. */
    ghost predicate Valid()
      reads this, table.Values
    {
      forall m, n :: m in table && n in table && m != n ==> table[m] != table[n] && table[m].chunks != table[n].chunks
    }

    ghost function Storage(): set<object>
      reads this, table.Values
    {
      (set n | n in table :: table[n]) + (set n | n in table :: table[n].chunks)
    }

    ghost function Contents(): map<nat, Buffer>
      reads this, table.Values, Storage()
    {
      map n | n in table :: table[n].Value()
    }

    constructor ()
      ensures Valid() && Contents() == map[]
    {
      table := map[];
    }

    /** operator[]: an absent frame number gets an empty buffer. */
    method At(n: nat) returns (fb: FrameBuffer)
      requires Valid()
      modifies this
      ensures Valid() && n in table && fb == table[n]
      ensures Contents() == if n in old(Contents()) then old(Contents()) else old(Contents())[n := EMPTY]
      ensures fb in old(Storage()) || fresh(fb)
      ensures fb.chunks in old(Storage()) || fresh(fb.chunks)
    {
      if n !in table {
        fb := new FrameBuffer();
        table := table[n := fb];
      } else {
        fb := table[n];
      }
    }

    /** A packet delivered to one entry leaves the others alone. */
    method DeliverTo(c: Config, fb: FrameBuffer, n: nat, pkt: Packet)
      requires Valid() && n in table && fb == table[n] && Acceptable(c, fb.Value(), pkt)
      modifies fb, fb.chunks
      ensures Valid() && fb.Value() == Absorb(c, old(fb.Value()), pkt)
      ensures Contents() == old(Contents())[n := fb.Value()]
    {
      hide Acceptable, Absorb;
      fb.Deliver(c, pkt);
    }

    /** One iteration of the consumer with a stream packet; the result is its completion test. */
    method Consume(c: Config, pkt: Packet) returns (complete: bool)
      requires Valid()
      requires Acceptable(c, if pkt.frameNumber in Contents() then Contents()[pkt.frameNumber] else EMPTY, pkt)
      modifies this, Storage()
      ensures Valid()
      ensures var n := pkt.frameNumber;
              var b := Absorb(c, if n in old(Contents()) then old(Contents())[n] else EMPTY, pkt);
              Contents() == old(Contents())[n := b] && complete == Complete(b)
    {
      hide Acceptable, Absorb;
      ghost var was := Contents();
      var fb := At(pkt.frameNumber);
      ghost var before := fb.Value();
      assert before == Contents()[pkt.frameNumber];
      DeliverTo(c, fb, pkt.frameNumber, pkt);
      complete := fb.totalSize == fb.expectedSize;
    }

    /** The decoder's lookup: the bytes it hands to decodeImage. */
    method Bytes(n: nat) returns (bytes: seq<byte>)
      requires Valid()
      modifies this
      ensures Valid()
      ensures n in old(Contents()) ==> Contents() == old(Contents()) && bytes == Contents()[n].chunks
      ensures n !in old(Contents()) ==> Contents() == old(Contents())[n := EMPTY] && bytes == []
    {
      var fb := At(n);
      assert fb.Value() == Contents()[n];
      bytes := fb.chunks[..];
    }

    method Erase(n: nat)
      requires Valid()
      modifies this
      ensures Valid() && Contents() == old(Contents()) - {n}
    {
      table := table - {n};
    }
  }
}

/**
  The consumer of the client library (RDIBY/client.cpp, FrameBufferStream) copies
  chunk i to i times the size of a packet, not of its payload. When a stride
  keeps the copies inside the buffer, and when it restores the frame.
 */
module Strides {
  import opened Words
  import opened Arithmetic
  import opened Packets
  import opened Reassembly

  lemma {:induction false} TimesGrows(i: nat, a: nat, b: nat)
    requires a < b
    ensures if i == 0 then Times(i, a) == Times(i, b) else Times(i, a) < Times(i, b)
  {
    if i > 0 {
      TimesGrows(i - 1, a, b);
    }
  }

  /** Every chunk of a frame of n bytes is copied to a place inside a buffer of n bytes. */
  ghost predicate StaysInside(n: nat, p: nat, stride: nat)
    requires p > 0
  {
    forall i: nat :: i < PacketCount(n, p) ==> Times(i, stride) + ChunkSize(n, i, p) <= n
  }

  /** Exactly for strides up to the payload size, or a frame of one chunk: with a larger one the last copy runs past the end. */
  lemma StaysInsideIff(c: Config, n: nat, stride: nat)
    requires c.Ok() && n <= 65535 * c.Payload()
    ensures StaysInside(n, c.Payload(), stride) <==> stride <= c.Payload() || n <= c.Payload()
  {
    var p := c.Payload();
    var count := PacketCount(n, p);
    CountIsExact(n, p);
    hide PacketCount;
    forall i: nat | i < count
      ensures stride <= p || i == 0 ==> Times(i, stride) + ChunkSize(n, i, p) <= n
    {
      ChunkBounds(n, i, p, count);
      if stride < p {
        TimesGrows(i, stride, p);
      }
    }
    if count > 1 {
      MulMono(1, count - 1, p);
      ChunkBounds(n, count - 1, p, count);
      if stride > p {
        TimesGrows(count - 1, p, stride);
        MulNext(count - 1, p);
        assert Times(count - 1, stride) + ChunkSize(n, count - 1, p) > n;
      }
    } else {
      MulMono(count, 1, p);
    }
  }

  /** The library's stride is the size of a packet: its copies stay inside for frames of one chunk only. */
  lemma LibraryStaysInsideIff(c: Config, n: nat)
    requires c.Ok() && n <= 65535 * c.Payload() && c.header > 0
    ensures StaysInside(n, c.Payload(), c.chunk) <==> n <= c.Payload()
  {
    StaysInsideIff(c, n, c.chunk);
  }

  /** The buffer after the first k chunks, in order. */
  ghost function Placed(c: Config, frame: seq<byte>, stride: nat, k: nat): (b: seq<byte>)
    requires c.Ok() && |frame| <= 65535 * c.Payload() && StaysInside(|frame|, c.Payload(), stride)
    requires k <= PacketCount(|frame|, c.Payload())
    ensures |b| == |frame|
  {
    if k == 0 then Zeros(|frame|)
    else
      PayloadIsSlice(c, frame, 0, k - 1, 0);
      Overwrite(Placed(c, frame, stride, k - 1), Times(k - 1, stride), MakePacket(c, frame, 0, k - 1, 0).payload)
  }

  /** At the source's offsets the first k chunks make up the first part of the frame. */
  lemma {:induction false} PlacedIsPrefix(c: Config, frame: seq<byte>, stride: nat, k: nat, x: nat)
    requires c.Ok() && |frame| <= 65535 * c.Payload() && StaysInside(|frame|, c.Payload(), stride)
    requires k <= PacketCount(|frame|, c.Payload()) && x < |frame|
    requires forall i: nat :: i < k ==> Times(i, stride) == Times(i, c.Payload())
    ensures Placed(c, frame, stride, k)[x] == if x < Times(k, c.Payload()) then frame[x] else 0
  {
    hide MakePacket, PacketCount, StaysInside;
    if k > 0 {
      PlacedIsPrefix(c, frame, stride, k - 1, x);
      PayloadIsSlice(c, frame, 0, k - 1, 0);
      MulNext(k - 1, c.Payload());
      hide Times;
    }
  }

  /** The chunk placed last is there. */
  lemma NextIsPlaced(c: Config, frame: seq<byte>, stride: nat, k: nat)
    requires c.Ok() && |frame| <= 65535 * c.Payload() && StaysInside(|frame|, c.Payload(), stride)
    requires k < PacketCount(|frame|, c.Payload())
    ensures Times(k, stride) < |frame| && Times(k, c.Payload()) < |frame|
    ensures Placed(c, frame, stride, k + 1)[Times(k, stride)] == frame[Times(k, c.Payload())]
  {
    hide MakePacket, PacketCount, Times, StaysInside, Placed, Overwrite, CopyOf;
    PlaceIsInside(c, |frame|, stride, k);
    PlacedNext(c, frame, stride, k);
    var at, from, n := Times(k, stride), Times(k, c.Payload()), ChunkSize(|frame|, k, c.Payload());
    OverwrittenAt(Placed(c, frame, stride, k), at, CopyOf(frame, from, n));
    CopiedAt(frame, from, n);
  }

  lemma OverwrittenAt(dst: seq<byte>, at: nat, src: seq<byte>)
    requires at + |src| <= |dst| && src != []
    ensures Overwrite(dst, at, src)[at] == src[0]
  {
  }

  lemma CopiedAt(src: seq<byte>, at: nat, n: nat)
    requires at + n <= |src| && n > 0
    ensures CopyOf(src, at, n)[0] == src[at]
  {
  }

  lemma PlacedNext(c: Config, frame: seq<byte>, stride: nat, k: nat)
    requires c.Ok() && |frame| <= 65535 * c.Payload() && StaysInside(|frame|, c.Payload(), stride)
    requires k < PacketCount(|frame|, c.Payload())
    ensures var (from, n) := (Times(k, c.Payload()), ChunkSize(|frame|, k, c.Payload()));
            && 0 < n && from + n <= |frame| && Times(k, stride) + n <= |frame|
            && Placed(c, frame, stride, k + 1) == Overwrite(Placed(c, frame, stride, k), Times(k, stride), CopyOf(frame, from, n))
  {
    hide MakePacket, PacketCount, Times, StaysInside, Overwrite, CopyOf;
    PlaceIsInside(c, |frame|, stride, k);
    PayloadIsSlice(c, frame, 0, k, 0);
  }

  lemma PlaceIsInside(c: Config, n: nat, stride: nat, k: nat)
    requires c.Ok() && StaysInside(n, c.Payload(), stride) && k < PacketCount(n, c.Payload())
    ensures Times(k, stride) + ChunkSize(n, k, c.Payload()) <= n
  {
    hide PacketCount, Times, ChunkSize;
  }

  /** The last chunk is where the stride puts it. */
  lemma LastIsPlaced(c: Config, frame: seq<byte>, stride: nat)
    requires c.Ok() && |frame| <= 65535 * c.Payload() && StaysInside(|frame|, c.Payload(), stride) && frame != []
    ensures var last := PacketCount(|frame|, c.Payload()) - 1;
            && 0 <= last && Times(last, stride) < |frame| && Times(last, c.Payload()) < |frame|
            && Placed(c, frame, stride, last + 1)[Times(last, stride)] == frame[Times(last, c.Payload())]
  {
    hide PacketCount, Placed, StaysInside, Times, MakePacket;
    CountIsExact(|frame|, c.Payload());
    NextIsPlaced(c, frame, stride, PacketCount(|frame|, c.Payload()) - 1);
  }

  /** A stride that stays inside restores every frame of n bytes if and only if it is the payload size or there is one chunk. */
  lemma StrideRestoresFramesIff(c: Config, n: nat, stride: nat)
    requires c.Ok() && n <= 65535 * c.Payload() && StaysInside(n, c.Payload(), stride)
    ensures (forall frame: seq<byte> :: |frame| == n ==> Placed(c, frame, stride, PacketCount(n, c.Payload())) == frame)
       <==> stride == c.Payload() || n <= c.Payload()
  {
    var p := c.Payload();
    if stride == p || n <= p {
      forall frame: seq<byte> | |frame| == n
        ensures Placed(c, frame, stride, PacketCount(n, p)) == frame
      {
        RestoresFrame(c, frame, stride);
      }
    } else {
      StaysInsideIff(c, n, stride);
      var frame := Spoiled(c, n, stride);
    }
  }

  lemma RestoresFrame(c: Config, frame: seq<byte>, stride: nat)
    requires c.Ok() && |frame| <= 65535 * c.Payload() && StaysInside(|frame|, c.Payload(), stride)
    requires stride == c.Payload() || |frame| <= c.Payload()
    ensures Placed(c, frame, stride, PacketCount(|frame|, c.Payload())) == frame
  {
    var p := c.Payload();
    var count := PacketCount(|frame|, p);
    CountIsExact(|frame|, p);
    hide PacketCount, StaysInside, Placed, MakePacket;
    if count > 1 {
      MulMono(1, count - 1, p);
      MulNext(count - 1, p);
    }
    forall x: nat | x < |frame|
      ensures Placed(c, frame, stride, count)[x] == frame[x]
    {
      PlacedIsPrefix(c, frame, stride, count, x);
    }
  }

  /** A smaller stride puts the last of several chunks before its place. */
  lemma LastIsMoved(c: Config, n: nat, stride: nat)
    requires c.Ok() && c.Payload() < n <= 65535 * c.Payload() && stride < c.Payload()
    ensures var last := PacketCount(n, c.Payload()) - 1; last >= 0 && Times(last, stride) < Times(last, c.Payload()) < n
  {
    var p := c.Payload();
    var last := PacketCount(n, p) - 1;
    CountIsExact(n, p);
    hide PacketCount;
    TimesGrows(last, stride, p);
    MulNext(last, p);
  }

  function Spike(n: nat, there: nat): (frame: seq<byte>)
    ensures |frame| == n && forall x :: 0 <= x < n ==> frame[x] == if x == there then 1 else 0
  {
    seq(n, x => if x == there then 1 else 0)
  }

  /** Then a frame with different bytes at the two places comes out wrong. */
  lemma SpoiledIfDifferent(c: Config, frame: seq<byte>, stride: nat, moved: nat, there: nat)
    requires c.Ok() && frame != [] && |frame| <= 65535 * c.Payload() && StaysInside(|frame|, c.Payload(), stride)
    requires PacketCount(|frame|, c.Payload()) > 0
    requires moved == Times(PacketCount(|frame|, c.Payload()) - 1, stride) < |frame|
    requires there == Times(PacketCount(|frame|, c.Payload()) - 1, c.Payload()) < |frame|
    requires frame[moved] != frame[there]
    ensures Placed(c, frame, stride, PacketCount(|frame|, c.Payload())) != frame
  {
    hide PacketCount, StaysInside, Placed, Times;
    LastIsPlaced(c, frame, stride);
  }

  /** As one whose only nonzero byte starts its last chunk. */
  lemma Spoiled(c: Config, n: nat, stride: nat) returns (frame: seq<byte>)
    requires c.Ok() && c.Payload() < n <= 65535 * c.Payload() && StaysInside(n, c.Payload(), stride) && stride < c.Payload()
    ensures |frame| == n && Placed(c, frame, stride, PacketCount(n, c.Payload())) != frame
  {
    LastIsMoved(c, n, stride);
    hide PacketCount, StaysInside, Placed, Times, Spike;
    var last := PacketCount(n, c.Payload()) - 1;
    frame := Spike(n, Times(last, c.Payload()));
    SpoiledIfDifferent(c, frame, stride, Times(last, stride), Times(last, c.Payload()));
  }
}

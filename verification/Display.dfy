/**
  From the decoder to the window: every bitmap that decodeImage returned is on
  its way to the queue, waiting in it, or painted, once; a failed decode shows
  nothing.
 */
module Display {
  import opened Packets
  import opened Reassembly
  import opened VideoClient
  import SQ = SemaphoreQueue
  import Screen

  /** The pictures that a sequence of decodes produced, in order. */
  ghost function Pictures(decoded: seq<Decode>): seq<Screen.Picture<Decode>> {
    if decoded == [] then []
    else
      var d := decoded[|decoded| - 1];
      Pictures(decoded[..|decoded| - 1]) + if d.ok then [Screen.Picture(d.frame, d)] else []
  }

  /** The bitmap the decoder holds and has not queued yet. */
  ghost function InHand(st: State): seq<Screen.Picture<Decode>> {
    if st.decoder.Decoded? && st.decoder.d.ok then [Screen.Picture(st.decoder.number, st.decoder.d)] else []
  }

  ghost predicate Displayed(st: State) {
    && Screen.Inv(st.screen)
    && Screen.QueuedIn(st.screen.log) + InHand(st) == Pictures(st.decoded)
  }

  lemma InitDisplayed()
    ensures Displayed(Init())
  {
  }

  lemma PicturesGrow(decoded: seq<Decode>, d: Decode)
    ensures Pictures(decoded + [d]) == Pictures(decoded) + if d.ok then [Screen.Picture(d.frame, d)] else []
  {
    assert (decoded + [d])[..|decoded|] == decoded;
  }

  lemma DecodeKeepsDisplayed(c: Config, st: State, ok: bool)
    requires Displayed(st) && Enabled(c, st, DecodeFrame(ok))
    ensures Displayed(Apply(c, st, DecodeFrame(ok)))
  {
    hide SQ.Queue.Dequeue, Screen.Inv, Screen.QueuedIn, Pictures, Absorbed, Acceptable;
    var life := Lookup(st.active, st.decoder.number);
    PicturesGrow(st.decoded, Decode(st.decoder.number, life.buffer.chunks, life.offsets, ok));
    assert InHand(st) == [] && Screen.QueuedIn(st.screen.log) + [] == Screen.QueuedIn(st.screen.log);
  }

  lemma ShowKeepsDisplayed(c: Config, st: State)
    requires Displayed(st) && Enabled(c, st, ShowFrame)
    ensures Displayed(Apply(c, st, ShowFrame))
  {
    hide SQ.Queue.Dequeue, Screen.Inv, Screen.QueuedIn, Pictures, Absorbed, Acceptable;
    if st.decoder.d.ok {
      var p := Screen.Picture(st.decoder.number, st.decoder.d);
      Screen.PushKeepsInv(st.screen, p);
      Screen.QueuedGrows(st.screen.log, Screen.Queued(p));
      assert Screen.QueuedIn(st.screen.log) + [p] + [] == Screen.QueuedIn(st.screen.log) + [p];
    }
  }

  lemma WindowKeepsDisplayed(c: Config, st: State, step: Step)
    requires Displayed(st) && Enabled(c, st, step) && (step.Paint? || step.Tick?)
    ensures Displayed(Apply(c, st, step))
  {
    hide SQ.Queue.Dequeue, Screen.Inv, Screen.QueuedIn, Screen.CanPaint, Pictures, Absorbed, Acceptable;
    if step.Paint? {
      Screen.PaintKeepsInv(st.screen, step.p);
      Screen.QueuedGrows(st.screen.log, Screen.Painted(step.p));
    } else {
      Screen.TickKeepsInv(st.screen);
      Screen.QueuedGrows(st.screen.log, Screen.Ticked);
    }
  }

  lemma OthersShowNothing(c: Config, st: State, step: Step)
    requires Enabled(c, st, step) && !step.DecodeFrame? && !step.ShowFrame? && !step.Paint? && !step.Tick?
    ensures var u := Apply(c, st, step);
            u.screen == st.screen && u.decoded == st.decoded && InHand(u) == InHand(st)
  {
    hide SQ.Queue.Dequeue, Acceptable, Absorb, Complete;
  }

  lemma StepKeepsDisplayed(c: Config, st: State, step: Step)
    requires Displayed(st) && Enabled(c, st, step)
    ensures Displayed(Apply(c, st, step))
  {
    hide Enabled, Apply, Screen.Inv, InHand, Pictures, Screen.QueuedIn;
    match step
    case DecodeFrame(ok) => DecodeKeepsDisplayed(c, st, ok);
    case ShowFrame => ShowKeepsDisplayed(c, st);
    case Paint(_) => WindowKeepsDisplayed(c, st, step);
    case Tick => WindowKeepsDisplayed(c, st, step);
    case _ => OthersShowNothing(c, st, step);
  }

  /** The bitmaps produced are those in hand, those waiting and those painted. */
  lemma PicturesConserved(st: State)
    requires Displayed(st)
    ensures multiset(Pictures(st.decoded)) == multiset(InHand(st)) + st.screen.queue + multiset(Screen.PaintedIn(st.screen.log))
  {
    Screen.QueuedIsWaitingOrPainted(st.screen.log);
  }

  /** A frame that is decoded once at most. */
  ghost predicate DecodedOnce(decoded: seq<Decode>, n: nat) {
    forall j, k :: 0 <= j < k < |decoded| ==> !(decoded[j].frame == n && decoded[k].frame == n)
  }

  /** Of such a frame one picture at most is produced. */
  lemma {:induction false} PictureCount(decoded: seq<Decode>, p: Screen.Picture<Decode>)
    requires DecodedOnce(decoded, p.number)
    ensures multiset(Pictures(decoded))[p] == if p.bitmap in decoded && p.bitmap.ok && p.number == p.bitmap.frame then 1 else 0
  {
    if decoded != [] {
      PictureCount(decoded[..|decoded| - 1], p);
    }
  }

  lemma {:induction false} PictureWasDecoded(decoded: seq<Decode>, p: Screen.Picture<Decode>)
    requires p in Pictures(decoded)
    ensures p.bitmap in decoded && p.bitmap.ok && p.number == p.bitmap.frame
  {
    var d := decoded[|decoded| - 1];
    if p in Pictures(decoded[..|decoded| - 1]) {
      PictureWasDecoded(decoded[..|decoded| - 1], p);
    }
  }

  /** Whatever the window paints was decoded, successfully and under its frame number. */
  lemma PaintedWasDecoded(st: State, i: nat)
    requires Displayed(st) && i < |st.screen.log| && st.screen.log[i].Painted?
    ensures var p := st.screen.log[i].p; p.bitmap in st.decoded && p.bitmap.ok && p.number == p.bitmap.frame
  {
    var p := st.screen.log[i].p;
    PicturesConserved(st);
    Screen.PaintCounts(st.screen.log, i);
    hide Displayed, Pictures, InHand, Screen.PaintedIn;
    assert p in multiset(Pictures(st.decoded));
    PictureWasDecoded(st.decoded, p);
  }

  /** And that is painted once at most. */
  lemma PaintedAtMostOnce(st: State, p: Screen.Picture<Decode>)
    requires Displayed(st) && DecodedOnce(st.decoded, p.number)
    ensures multiset(Screen.PaintedIn(st.screen.log))[p] <= 1
  {
    PicturesConserved(st);
    PictureCount(st.decoded, p);
    hide Displayed, Pictures, InHand, Screen.PaintedIn;
  }

  /** A frame decoded once at most is painted once at most. */
  lemma NoFramePaintedTwice(st: State, i: nat, j: nat)
    requires Displayed(st) && i < j < |st.screen.log| && st.screen.log[i].Painted? && st.screen.log[j].Painted?
    requires DecodedOnce(st.decoded, st.screen.log[i].p.number)
    ensures st.screen.log[i].p.number != st.screen.log[j].p.number
  {
    hide Displayed, Pictures, InHand, Screen.PaintedIn;
    var log := st.screen.log;
    PaintedWasDecoded(st, i);
    PaintedWasDecoded(st, j);
    if log[i].p == log[j].p {
      Screen.PaintsCount(log, i, j);
      PaintedAtMostOnce(st, log[i].p);
    }
  }
}

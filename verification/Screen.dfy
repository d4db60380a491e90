/**
  The hand-over from the decoder to the window (VideoClient/main.cpp): decoded
  pictures wait in a priority queue under bmpMutex, each timer tick lets one
  WM_PAINT show the picture with the least frame number.
 */
module Screen {

  datatype Picture<B> = Picture(number: nat, bitmap: B)

  datatype Event<B> = Queued(p: Picture<B>) | Painted(p: Picture<B>) | Ticked

  /** frameNumBmpQueue, loadFrame, and the history of what happened to them. */
  datatype State<B(==)> = State(queue: multiset<Picture<B>>, loadFrame: bool, log: seq<Event<B>>)

  function Init<B>(): State<B> {
    State(multiset{}, false, [])
  }

  function PushPicture<B>(st: State<B>, p: Picture<B>): State<B> {
    st.(queue := st.queue + multiset{p}, log := st.log + [Queued(p)])
  }

  function Tick<B>(st: State<B>): State<B> {
    st.(loadFrame := true, log := st.log + [Ticked])
  }

  /** The ordering the priority queue is built with. */
  predicate CompareNumBmpPairs<B>(a: Picture<B>, b: Picture<B>) {
    a.number > b.number
  }

  /** On top of a priority queue is an element that the ordering puts before no other. */
  predicate IsTop<B(==)>(queue: multiset<Picture<B>>, p: Picture<B>) {
    p in queue && forall x :: x in queue ==> !CompareNumBmpPairs(p, x)
  }

  /** A nonempty queue has a top, and what is on top has a least frame number. */
  lemma TopExists<B>(queue: multiset<Picture<B>>) returns (top: Picture<B>)
    requires queue != multiset{}
    ensures IsTop(queue, top)
    ensures forall p :: IsTop(queue, p) <==> p in queue && p.number == top.number
    ensures forall x :: x in queue ==> top.number <= x.number
    decreases |queue|
  {
    var p :| p in queue;
    var rest := queue - multiset{p};
    assert forall x :: x in queue ==> x == p || x in rest;
    top := p;
    if rest != multiset{} {
      var t := TopExists(rest);
      if t.number < p.number {
        top := t;
      }
    }
  }

  /** Pop takes some picture that CompareNumBmpPairs puts on top. */
  ghost predicate CanPaint<B>(st: State<B>, p: Picture<B>) {
    st.loadFrame && IsTop(st.queue, p)
  }

  function Paint<B>(st: State<B>, p: Picture<B>): State<B> {
    st.(queue := st.queue - multiset{p}, loadFrame := false, log := st.log + [Painted(p)])
  }

  // ----- What a log says on its own -----

  ghost function Waiting<B>(log: seq<Event<B>>): multiset<Picture<B>> {
    if log == [] then multiset{}
    else
      var before := Waiting(log[..|log| - 1]);
      match log[|log| - 1]
      case Queued(p) => before + multiset{p}
      case Painted(p) => before - multiset{p}
      case Ticked => before
  }

  ghost predicate TickPending<B>(log: seq<Event<B>>) {
    log != [] && match log[|log| - 1]
                 case Queued(p) => TickPending(log[..|log| - 1])
                 case Painted(p) => false
                 case Ticked => true
  }

  /** Every paint in the log showed a least waiting picture, after a tick of its own. */
  ghost predicate Lawful<B>(log: seq<Event<B>>) {
    forall i :: 0 <= i < |log| && log[i].Painted? ==>
      && log[i].p in Waiting(log[..i])
      && (forall x :: x in Waiting(log[..i]) ==> log[i].p.number <= x.number)
      && TickPending(log[..i])
  }

  ghost predicate Inv<B>(st: State<B>) {
    st.queue == Waiting(st.log) && st.loadFrame == TickPending(st.log) && Lawful(st.log)
  }

  /** A log stays lawful when anything but an unlawful paint is added. */
  lemma LawfulExtends<B>(log: seq<Event<B>>, e: Event<B>)
    requires Lawful(log)
    requires e.Painted? ==>
               && e.p in Waiting(log)
               && (forall x :: x in Waiting(log) ==> e.p.number <= x.number)
               && TickPending(log)
    ensures Lawful(log + [e]) && (log + [e])[..|log|] == log
  {
    var more := log + [e];
    assert more[..|log|] == log;
    hide Waiting, TickPending;
    forall i | 0 <= i < |more| && more[i].Painted?
      ensures more[i].p in Waiting(more[..i]) && TickPending(more[..i])
      ensures forall x :: x in Waiting(more[..i]) ==> more[i].p.number <= x.number
    {
      if i < |log| {
        assert more[..i] == log[..i] && more[i] == log[i];
      }
    }
  }

  lemma PushKeepsInv<B>(st: State<B>, p: Picture<B>)
    requires Inv(st)
    ensures Inv(PushPicture(st, p))
  {
    LawfulExtends(st.log, Queued(p));
    hide Lawful;
  }

  lemma PaintKeepsInv<B>(st: State<B>, p: Picture<B>)
    requires Inv(st) && CanPaint(st, p)
    ensures Inv(Paint(st, p))
  {
    LawfulExtends(st.log, Painted(p));
    hide Lawful;
  }

  lemma TickKeepsInv<B>(st: State<B>)
    requires Inv(st)
    ensures Inv(Tick(st))
  {
    LawfulExtends(st.log, Ticked);
    hide Lawful;
  }

  /** A picture waiting later but not earlier was queued in between. */
  lemma {:induction false} QueuedInBetween<B>(log: seq<Event<B>>, i: nat, j: nat, p: Picture<B>) returns (k: nat)
    requires i <= j <= |log| && p !in Waiting(log[..i]) && p in Waiting(log[..j])
    ensures i <= k < j && log[k] == Queued(p)
  {
    assert i < j;
    assert log[..j][..j - 1] == log[..j - 1];
    if p in Waiting(log[..j - 1]) {
      k := QueuedInBetween(log, i, j - 1, p);
    } else {
      k := j - 1;
    }
  }

  /**
    Display order: a picture painted after one with a larger frame number was
    queued only after that one had been painted.
   */
  lemma LateFramesWereQueuedLate<B>(log: seq<Event<B>>, i: nat, j: nat)
    requires Lawful(log) && i < j < |log| && log[i].Painted? && log[j].Painted?
    requires log[j].p.number < log[i].p.number
    ensures exists k :: i < k < j && log[k] == Queued(log[j].p)
  {
    assert log[..i + 1][..i] == log[..i];
    assert log[j].p !in Waiting(log[..i + 1]);
    var k := QueuedInBetween(log, i + 1, j, log[j].p);
  }

  lemma {:induction false} TickedSince<B>(log: seq<Event<B>>, i: nat, j: nat) returns (k: nat)
    requires i <= j <= |log| && !TickPending(log[..i]) && TickPending(log[..j])
    ensures i <= k < j && log[k].Ticked?
  {
    assert i < j;
    assert log[..j][..j - 1] == log[..j - 1];
    if log[j - 1].Ticked? {
      k := j - 1;
    } else {
      k := TickedSince(log, i, j - 1);
    }
  }

  /** The timer paces the display: between any two paints there is a tick. */
  lemma PaintsArePaced<B>(log: seq<Event<B>>, i: nat, j: nat)
    requires Lawful(log) && i < j < |log| && log[i].Painted? && log[j].Painted?
    ensures exists k :: i < k < j && log[k].Ticked?
  {
    assert log[..i + 1][..i] == log[..i];
    var k := TickedSince(log, i + 1, j);
  }

  // ----- Conservation of pictures -----

  /** The pictures queued, in order. */
  ghost function QueuedIn<B>(log: seq<Event<B>>): seq<Picture<B>> {
    if log == [] then []
    else QueuedIn(log[..|log| - 1]) + if log[|log| - 1].Queued? then [log[|log| - 1].p] else []
  }

  lemma QueuedGrows<B>(log: seq<Event<B>>, e: Event<B>)
    ensures QueuedIn(log + [e]) == QueuedIn(log) + if e.Queued? then [e.p] else []
  {
    assert (log + [e])[..|log|] == log;
  }

  /** The pictures painted, in order. */
  ghost function PaintedIn<B>(log: seq<Event<B>>): seq<Picture<B>> {
    if log == [] then []
    else PaintedIn(log[..|log| - 1]) + if log[|log| - 1].Painted? then [log[|log| - 1].p] else []
  }

  lemma PaintedGrows<B>(log: seq<Event<B>>, e: Event<B>)
    ensures PaintedIn(log + [e]) == PaintedIn(log) + if e.Painted? then [e.p] else []
  {
    assert (log + [e])[..|log|] == log;
  }

  lemma LawfulPrefix<B>(log: seq<Event<B>>, k: nat)
    requires Lawful(log) && k <= |log|
    ensures Lawful(log[..k])
  {
    hide Waiting, TickPending;
    forall i | 0 <= i < k
      ensures log[..k][..i] == log[..i]
    {
    }
  }

  /** Each picture queued is waiting or has been painted, as often as it was queued. */
  lemma {:induction false} QueuedIsWaitingOrPainted<B>(log: seq<Event<B>>)
    requires Lawful(log)
    ensures multiset(QueuedIn(log)) == Waiting(log) + multiset(PaintedIn(log))
  {
    if log != [] {
      var front := log[..|log| - 1];
      LawfulPrefix(log, |log| - 1);
      QueuedIsWaitingOrPainted(front);
      hide Lawful;
    }
  }

  /** Two paints are two occurrences. */
  lemma {:induction false} PaintsCount<B>(log: seq<Event<B>>, i: nat, j: nat)
    requires i < j < |log| && log[i].Painted? && log[j] == log[i]
    ensures multiset(PaintedIn(log))[log[i].p] >= 2
  {
    var front := log[..|log| - 1];
    if j < |front| {
      PaintsCount(front, i, j);
    } else {
      PaintCounts(front, i);
    }
  }

  lemma {:induction false} PaintCounts<B>(log: seq<Event<B>>, i: nat)
    requires i < |log| && log[i].Painted?
    ensures multiset(PaintedIn(log))[log[i].p] >= 1
  {
    if i < |log| - 1 {
      PaintCounts(log[..|log| - 1], i);
    }
  }
}

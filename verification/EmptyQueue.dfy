/**
  Exactly when Pop can throw "empty queue" (VideoClient/datastructures.h): when
  more semaphore units are about than items, which only Clear brings about.
 */
module EmptyQueue {
  import opened SemaphoreQueue

  /** The run only works off what is there: nothing is enqueued or cleared. */
  predicate WorksOff<T>(steps: seq<Step<T>>) {
    forall j :: 0 <= j < |steps| ==> !steps[j].Clear? && !steps[j].EnqueueHalf?
  }

  /** Working off what is there can end a Pop in "empty queue". */
  ghost predicate CanThrow<T(!new)>(limit: nat, st: State<T>) {
    exists more :: WorksOff(more) && Runs(limit, st, more) && After(limit, st, more).throws > st.throws
  }

  /** The half-steps still possible, weighted so that each lowers the sum. */
  function Remaining<T>(st: State<T>): nat {
    4 * |st.pushing| + 3 * st.q.count + 2 * |st.popping|
  }

  lemma FreshThread(busy: set<nat>) returns (t: nat)
    ensures forall x :: x in busy ==> x < t
  {
    if busy == {} {
      t := 0;
    } else {
      var x :| x in busy;
      var above := FreshThread(busy - {x});
      t := if above <= x then x + 1 else above;
      assert forall y :: y in busy ==> y == x || y in busy - {x};
    }
  }

  /**
    Working off a queue with fewer items than units: threads between the halves
    of Pop go first, then units are taken, then pending releases made, so that
    no release fails, until a thread finds nothing to dequeue.
   */
  lemma {:induction false} WorkOffThrows<T>(limit: nat, st: State<T>) returns (more: seq<Step<T>>)
    requires limit > 0 && Balanced(st) && st.throws + st.q.failed < |st.cleared|
    ensures WorksOff(more) && Runs(limit, st, more) && After(limit, st, more).throws > st.throws
    decreases Remaining(st)
  {
    var step: Step<T>;
    if st.popping != {} {
      var t :| t in st.popping;
      step := DequeueHalf(t);
    } else if st.q.count > 0 {
      var t := FreshThread(st.pushing);
      step := WaitHalf(t);
    } else {
      var t :| t in st.pushing;
      step := ReleaseHalf(t);
    }
    var u := Apply(limit, st, step);
    StepKeepsBalanced(limit, st, step);
    if u.throws > st.throws {
      OneMore(limit, st, step, []);
      more := [step] + [];
    } else {
      var rest := WorkOffThrows(limit, u);
      OneMore(limit, st, step, rest);
      more := [step] + rest;
    }
  }

  /** A throw uses up a unit whose item was cleared. */
  lemma {:induction false} ThrowNeedsCleared<T>(limit: nat, st: State<T>, more: seq<Step<T>>)
    requires Balanced(st) && WorksOff(more) && Runs(limit, st, more) && After(limit, st, more).throws > st.throws
    ensures st.throws + st.q.failed < |st.cleared|
    decreases more
  {
    var u := Apply(limit, st, more[0]);
    if u.throws == st.throws {
      StepKeepsBalanced(limit, st, more[0]);
      ThrowNeedsCleared(limit, u, more[1..]);
    }
  }

  /**
    With nothing more enqueued or cleared a Pop can come to throw if and only if
    items were cleared whose units are neither spent on a throw nor lost to a
    failed release, that is, if more units are about than items.
   */
  lemma PopCanThrowIff<T(!new)>(limit: nat, st: State<T>)
    requires limit > 0 && Balanced(st)
    ensures CanThrow(limit, st) <==> st.throws + st.q.failed < |st.cleared|
    ensures CanThrow(limit, st) <==> |st.q.items| < st.q.count + |st.pushing| + |st.popping|
  {
    if CanThrow(limit, st) {
      var more :| WorksOff(more) && Runs(limit, st, more) && After(limit, st, more).throws > st.throws;
      ThrowNeedsCleared(limit, st, more);
    }
    if st.throws + st.q.failed < |st.cleared| {
      var more := WorkOffThrows(limit, st);
    }
  }

  /** So after any run, of any number of threads. */
  lemma ReachedStateCanThrowIff<T(!new)>(limit: nat, steps: seq<Step<T>>)
    requires limit > 0 && Runs(limit, Init<T>(), steps)
    ensures var st := After(limit, Init<T>(), steps);
            && (CanThrow(limit, st) <==> st.throws + st.q.failed < |st.cleared|)
            && (CanThrow(limit, st) <==> |st.q.items| < st.q.count + |st.pushing| + |st.popping|)
  {
    OrderBy(Init<T>(), []);
    hide Balanced, InOrder, Runs, After, CanThrow;
    assert Balanced(Init<T>()) by {
      NothingYet<T>();
    }
    RunKeepsBoth(limit, Init<T>(), steps);
    PopCanThrowIff(limit, After(limit, Init<T>(), steps));
  }

  lemma NothingYet<T>()
    ensures Balanced(Init<T>())
  {
  }
}

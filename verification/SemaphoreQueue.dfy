/**
  The queue of VideoClient/datastructures.h in its micro-steps. Push enqueues
  under the critical section and releases the semaphore outside it; Pop waits
  on the semaphore first and dequeues afterwards; Clear leaves the semaphore
  alone. Any number of threads interleave these halves.
 */
module SemaphoreQueue {

  /** The items, the semaphore's count, and the releases that failed because the count was at its limit. */
  datatype Queue<T> = Queue(items: seq<T>, count: nat, failed: nat) {

    function Enqueue(x: T): Queue<T> {
      this.(items := items + [x])
    }

    function Release(limit: nat): Queue<T> {
      if count < limit then this.(count := count + 1) else this.(failed := failed + 1)
    }

    function Wait(): Queue<T>
      requires count > 0
    {
      this.(count := count - 1)
    }

    function Dequeue(): Queue<T>
      requires items != []
    {
      this.(items := items[1..])
    }
  }

  /** The first item leaves, the others and the counters stay. */
  lemma Dequeued<T>(q: Queue<T>)
    requires q.items != []
    ensures q.items == [q.items[0]] + q.Dequeue().items
    ensures q.Dequeue().count == q.count && q.Dequeue().failed == q.failed
  {
  }

  /** The limit CreateSemaphore is given. */
  const MAXINT: nat := 0x7FFF_FFFF

  /** A thread is in neither set, between the halves of a Push, or between the halves of a Pop. */
  datatype State<T> = State(
    q: Queue<T>,
    pushing: set<nat>,
    popping: set<nat>,
    throws: nat,          // pops that ended in "empty queue"
    enqueued: seq<T>,
    dequeued: seq<T>,
    cleared: seq<T>)

  datatype Step<T> =
    | EnqueueHalf(thread: nat, item: T)
    | ReleaseHalf(thread: nat)
    | WaitHalf(thread: nat)
    | DequeueHalf(thread: nat)
    | Clear

  function Init<T>(): State<T> {
    State(Queue([], 0, 0), {}, {}, 0, [], [], [])
  }

  predicate Enabled<T>(st: State<T>, step: Step<T>) {
    match step
    case EnqueueHalf(t, x) => t !in st.pushing && t !in st.popping
    case ReleaseHalf(t) => t in st.pushing
    case WaitHalf(t) => t !in st.pushing && t !in st.popping && st.q.count > 0
    case DequeueHalf(t) => t in st.popping
    case Clear => true
  }

  function Apply<T>(limit: nat, st: State<T>, step: Step<T>): State<T>
    requires Enabled(st, step)
  {
    match step
    case EnqueueHalf(t, x) =>
      st.(q := st.q.Enqueue(x), pushing := st.pushing + {t}, enqueued := st.enqueued + [x])
    case ReleaseHalf(t) =>
      st.(q := st.q.Release(limit), pushing := st.pushing - {t})
    case WaitHalf(t) =>
      st.(q := st.q.Wait(), popping := st.popping + {t})
    case DequeueHalf(t) =>
      if st.q.items == [] then st.(popping := st.popping - {t}, throws := st.throws + 1)
      else st.(q := st.q.Dequeue(), popping := st.popping - {t}, dequeued := st.dequeued + [st.q.items[0]])
    case Clear =>
      st.(q := st.q.(items := []), cleared := st.cleared + st.q.items)
  }

  predicate Runs<T>(limit: nat, st: State<T>, steps: seq<Step<T>>)
    decreases steps
  {
    steps == [] || (Enabled(st, steps[0]) && Runs(limit, Apply(limit, st, steps[0]), steps[1..]))
  }

  function After<T>(limit: nat, st: State<T>, steps: seq<Step<T>>): State<T>
    requires Runs(limit, st, steps)
    decreases steps
  {
    if steps == [] then st else After(limit, Apply(limit, st, steps[0]), steps[1..])
  }

  /** a is b with some elements left out. */
  predicate Subsequence<T(==)>(a: seq<T>, b: seq<T>) {
    if a == [] then true
    else if b == [] then false
    else if a[|a| - 1] == b[|b| - 1] && Subsequence(a[..|a| - 1], b[..|b| - 1]) then true
    else Subsequence(a, b[..|b| - 1])
  }

  lemma {:induction false} SubsequenceSkips<T>(a: seq<T>, b: seq<T>, c: seq<T>)
    requires Subsequence(a, b)
    ensures Subsequence(a, b + c)
  {
    if c == [] {
      assert b + c == b;
    } else {
      SubsequenceSkips(a, b, c[..|c| - 1]);
      assert (b + c)[..|b + c| - 1] == b + c[..|c| - 1];
    }
  }

  lemma SubsequenceTakes<T>(a: seq<T>, b: seq<T>, x: T)
    requires Subsequence(a, b)
    ensures Subsequence(a + [x], b + [x])
  {
    assert (a + [x])[..|a|] == a && (b + [x])[..|b|] == b;
  }

  /** The ledger: every semaphore unit and every half-done call is backed by an item, or by one cleared away. */
  ghost predicate Balanced<T>(st: State<T>) {
    && st.q.count + |st.pushing| + |st.popping| + st.throws + st.q.failed == |st.q.items| + |st.cleared|
    && st.throws <= |st.cleared|
    && st.pushing !! st.popping
  }

  /** The items enqueued are those gone, then those queued; those dequeued left in order, the others were cleared. */
  ghost predicate OrderVia<T>(st: State<T>, gone: seq<T>) {
    && st.enqueued == gone + st.q.items
    && Subsequence(st.dequeued, gone)
    && multiset(gone) == multiset(st.dequeued) + multiset(st.cleared)
  }

  ghost predicate InOrder<T>(st: State<T>) {
    |st.q.items| <= |st.enqueued| && OrderVia(st, st.enqueued[..|st.enqueued| - |st.q.items|])
  }

  lemma OrderBy<T>(st: State<T>, gone: seq<T>)
    requires OrderVia(st, gone)
    ensures InOrder(st)
  {
    assert st.enqueued[..|st.enqueued| - |st.q.items|] == gone;
  }

  lemma StepKeepsBalanced<T>(limit: nat, st: State<T>, step: Step<T>)
    requires Balanced(st) && Enabled(st, step)
    ensures Balanced(Apply(limit, st, step))
  {
  }

  lemma DequeueKeepsOrder<T>(limit: nat, st: State<T>, gone: seq<T>, t: nat)
    requires OrderVia(st, gone) && t in st.popping && st.q.items != []
    ensures OrderVia(Apply(limit, st, DequeueHalf(t)), gone + [st.q.items[0]])
  {
    hide Subsequence;
    var x := st.q.items[0];
    SubsequenceTakes(st.dequeued, gone, x);
    assert st.q.items == [x] + st.q.items[1..];
    assert gone + [x] + st.q.items[1..] == gone + ([x] + st.q.items[1..]);
  }

  lemma ClearKeepsOrder<T>(limit: nat, st: State<T>, gone: seq<T>)
    requires OrderVia(st, gone)
    ensures OrderVia(Apply(limit, st, Clear), st.enqueued)
  {
    hide Subsequence;
    SubsequenceSkips(st.dequeued, gone, st.q.items);
    assert st.enqueued + [] == st.enqueued;
  }

  lemma StepKeepsOrder<T>(limit: nat, st: State<T>, step: Step<T>)
    requires InOrder(st) && Enabled(st, step)
    ensures InOrder(Apply(limit, st, step))
  {
    hide Subsequence;
    var gone := st.enqueued[..|st.enqueued| - |st.q.items|];
    var u := Apply(limit, st, step);
    match step
    case EnqueueHalf(t, x) =>
      assert gone + (st.q.items + [x]) == gone + st.q.items + [x];
      OrderBy(u, gone);
    case DequeueHalf(t) =>
      if st.q.items != [] {
        DequeueKeepsOrder(limit, st, gone, t);
        OrderBy(u, gone + [st.q.items[0]]);
      }
    case Clear =>
      ClearKeepsOrder(limit, st, gone);
      OrderBy(u, st.enqueued);
    case _ =>
  }

  lemma {:induction false} RunKeepsBoth<T>(limit: nat, st: State<T>, steps: seq<Step<T>>)
    requires Balanced(st) && InOrder(st) && Runs(limit, st, steps)
    ensures Balanced(After(limit, st, steps)) && InOrder(After(limit, st, steps))
    decreases steps
  {
    hide Balanced, InOrder, Apply, Enabled;
    if steps != [] {
      StepKeepsBalanced(limit, st, steps[0]);
      StepKeepsOrder(limit, st, steps[0]);
      RunKeepsBoth(limit, Apply(limit, st, steps[0]), steps[1..]);
    }
  }

  /** Queue accounting over every interleaving of any number of threads and clears. */
  lemma QueueAccounting<T>(limit: nat, steps: seq<Step<T>>)
    requires Runs(limit, Init<T>(), steps)
    ensures var st := After(limit, Init<T>(), steps);
            && st.q.count + |st.pushing| + |st.popping| + st.throws + st.q.failed == |st.q.items| + |st.cleared|
            && st.throws <= |st.cleared|
            && multiset(st.enqueued) == multiset(st.dequeued) + multiset(st.cleared) + multiset(st.q.items)
            && Subsequence(st.dequeued, st.enqueued)
  {
    OrderBy(Init<T>(), []);
    hide Subsequence, Apply, Enabled;
    RunKeepsBoth(limit, Init<T>(), steps);
    var st := After(limit, Init<T>(), steps);
    hide After, Runs;
    SubsequenceSkips(st.dequeued, st.enqueued[..|st.enqueued| - |st.q.items|], st.q.items);
  }

  lemma {:induction false} NothingCleared<T>(limit: nat, st: State<T>, steps: seq<Step<T>>)
    requires Runs(limit, st, steps) && Clear !in steps
    requires st.dequeued + st.q.items == st.enqueued
    ensures var u := After(limit, st, steps); u.cleared == st.cleared && u.dequeued + u.q.items == u.enqueued
    decreases steps
  {
    if steps != [] {
      var u := Apply(limit, st, steps[0]);
      match steps[0] {
        case EnqueueHalf(t, x) =>
          assert st.dequeued + (st.q.items + [x]) == st.enqueued + [x];
        case DequeueHalf(t) =>
          if st.q.items != [] {
            assert st.dequeued + [st.q.items[0]] + st.q.items[1..] == st.dequeued + st.q.items;
          }
        case _ =>
      }
      NothingCleared(limit, u, steps[1..]);
    }
  }

  /**
    Without Clear the queue is first-in first-out, "empty queue" is never thrown,
    and every thread that passed the wait has an item to take.
   */
  lemma FifoWithoutClear<T>(limit: nat, steps: seq<Step<T>>)
    requires Runs(limit, Init<T>(), steps) && Clear !in steps
    ensures var st := After(limit, Init<T>(), steps);
            && st.dequeued + st.q.items == st.enqueued
            && st.throws == 0
            && |st.popping| <= |st.q.items|
  {
    NothingCleared(limit, Init<T>(), steps);
    QueueAccounting(limit, steps);
  }

  /**
    A blocked Pop waits for good reason: with no clears and no failed release, the
    count is zero only when each queued item is claimed by a thread past its wait
    or belongs to a thread about to release.
   */
  lemma BlockedOnlyWhenClaimed<T>(limit: nat, steps: seq<Step<T>>)
    requires Runs(limit, Init<T>(), steps) && Clear !in steps
    ensures var st := After(limit, Init<T>(), steps);
            st.q.failed == 0 ==> (st.q.count == 0 <==> |st.q.items| == |st.pushing| + |st.popping|)
  {
    FifoWithoutClear(limit, steps);
    NothingCleared(limit, Init<T>(), steps);
    QueueAccounting(limit, steps);
  }

  /** Nothing but its own position and the semaphore holds a thread back, whatever the others are doing; Clear is always possible. */
  lemma ThreadsAreFree<T>(st: State<T>, t: nat, x: T)
    ensures t !in st.pushing && t !in st.popping ==> Enabled(st, EnqueueHalf(t, x)) && (Enabled(st, WaitHalf(t)) <==> st.q.count > 0)
    ensures t in st.pushing ==> Enabled(st, ReleaseHalf(t))
    ensures t in st.popping ==> Enabled(st, DequeueHalf(t))
    ensures Enabled(st, Clear)
  {
  }

  /** A release counts exactly below the limit, so the semaphore never exceeds it. */
  lemma {:induction false} CountStaysWithin<T>(limit: nat, st: State<T>, steps: seq<Step<T>>)
    requires st.q.count <= limit && Runs(limit, st, steps)
    ensures After(limit, st, steps).q.count <= limit
    decreases steps
  {
    if steps != [] {
      CountStaysWithin(limit, Apply(limit, st, steps[0]), steps[1..]);
    }
  }

  /** A release fails exactly when the count is at the limit. */
  lemma ReleaseFailsIff<T>(limit: nat, st: State<T>, t: nat)
    requires st.q.count <= limit && t in st.pushing
    ensures var u := Apply(limit, st, ReleaseHalf(t));
            && (st.q.count < limit ==> u.q.count == st.q.count + 1 && u.q.failed == st.q.failed)
            && (st.q.count == limit ==> u.q.count == limit && u.q.failed == st.q.failed + 1)
            && u.q.items == st.q.items && t !in u.pushing
  {
  }

  /** With Clear the throw is reachable: the semaphore still counts the item that was cleared. */
  lemma ClearMakesPopThrow<T>(limit: nat, x: T) returns (steps: seq<Step<T>>)
    requires limit > 0
    ensures Runs(limit, Init<T>(), steps) && After(limit, Init<T>(), steps).throws == 1
  {
    var s1 := Apply(limit, Init<T>(), EnqueueHalf(0, x));
    var s2 := Apply(limit, s1, ReleaseHalf(0));
    var s3 := Apply(limit, s2, Clear);
    var s4 := Apply(limit, s3, WaitHalf(1));
    var s5 := Apply(limit, s4, DequeueHalf(1));
    OneMore(limit, s4, DequeueHalf(1), []);
    OneMore(limit, s3, WaitHalf(1), [DequeueHalf(1)]);
    OneMore(limit, s2, Clear, [WaitHalf(1), DequeueHalf(1)]);
    OneMore(limit, s1, ReleaseHalf(0), [Clear, WaitHalf(1), DequeueHalf(1)]);
    OneMore(limit, Init<T>(), EnqueueHalf(0, x), [ReleaseHalf(0), Clear, WaitHalf(1), DequeueHalf(1)]);
    steps := [EnqueueHalf(0, x)] + [ReleaseHalf(0), Clear, WaitHalf(1), DequeueHalf(1)];
    assert steps == [EnqueueHalf(0, x), ReleaseHalf(0), Clear, WaitHalf(1), DequeueHalf(1)];
  }

  lemma OneMore<T>(limit: nat, st: State<T>, step: Step<T>, rest: seq<Step<T>>)
    requires Enabled(st, step) && Runs(limit, Apply(limit, st, step), rest)
    ensures Runs(limit, st, [step] + rest)
    ensures After(limit, st, [step] + rest) == After(limit, Apply(limit, st, step), rest)
  {
    assert ([step] + rest)[1..] == rest;
  }
}

/**
  The two queue classes of VideoClient/datastructures.h, called by one thread
  at a time, and the window's use of the priority queue under bmpMutex. Each
  call is the sequence of its micro-steps.
 */
module ThreadSafeQueues {
  import SQ = SemaphoreQueue
  import Screen

  datatype Result<+T> = Ok(value: T) | RuntimeError(what: string)

  /** What GetLastError reports of a release beyond the limit. */
  const ERROR_TOO_MANY_POSTS: nat := 298

  class ThreadSafeQueue<T> {
    var queue: seq<T>
    var queueSemaphore: nat
    ghost var failedReleases: nat

    ghost function State(): SQ.Queue<T>
      reads this
    {
      SQ.Queue(queue, queueSemaphore, failedReleases)
    }

    constructor ()
      ensures State() == SQ.Queue([], 0, 0)
    {
      queue, queueSemaphore, failedReleases := [], 0, 0;
    }

    /** 0 on success, otherwise the system error code; the item is queued either way. */
    method Push(item: T) returns (res: nat)
      modifies this
      ensures State() == old(State()).Enqueue(item).Release(SQ.MAXINT)
      ensures res == if old(queueSemaphore) < 0x7FFF_FFFF then 0 else 298
    {
      queue := queue + [item];
      if queueSemaphore < SQ.MAXINT {
        queueSemaphore := queueSemaphore + 1;
        res := 0;
      } else {
        failedReleases := failedReleases + 1;
        res := ERROR_TOO_MANY_POSTS;
      }
    }

    /** The wait has no timeout, so the call proceeds only once the semaphore has a unit. */
    method Pop() returns (r: Result<T>)
      requires queueSemaphore > 0
      modifies this
      ensures old(queue) != [] ==> r == Ok(old(queue)[0]) && State() == old(State()).Wait().Dequeue()
      ensures old(queue) == [] ==> r == RuntimeError("empty queue") && State() == old(State()).Wait()
    {
      queueSemaphore := queueSemaphore - 1;
      if queue == [] {
        return RuntimeError("empty queue");
      }
      r := Ok(queue[0]);
      queue := queue[1..];
    }

    /** What the next Pop would return, left where it is. */
    method Peek() returns (r: Result<T>)
      ensures r.Ok? <==> queue != []
      ensures r.Ok? ==> State().items == [r.value] + State().Dequeue().items
      ensures r.RuntimeError? ==> r.what == "empty queue"
    {
      if queue == [] {
        return RuntimeError("empty queue");
      }
      r := Ok(queue[0]);
    }

    method Clear()
      modifies this
      ensures State() == old(State()).(items := [])
    {
      queue := [];
    }
  }

  /** The priority queue; which of several least pictures is on top is left to the library. */
  class ThreadSafePrioQueue<B(==)> {
    var queue: multiset<Screen.Picture<B>>
    var queueSemaphore: nat

    constructor ()
      ensures queue == multiset{} && queueSemaphore == 0
    {
      queue, queueSemaphore := multiset{}, 0;
    }

    method Push(item: Screen.Picture<B>) returns (res: nat)
      modifies this
      ensures queue == old(queue) + multiset{item}
      ensures old(queueSemaphore) < 0x7FFF_FFFF ==> res == 0 && queueSemaphore == old(queueSemaphore) + 1
      ensures old(queueSemaphore) >= 0x7FFF_FFFF ==> res == 298 && queueSemaphore == old(queueSemaphore)
    {
      queue := queue + multiset{item};
      if queueSemaphore < SQ.MAXINT {
        queueSemaphore := queueSemaphore + 1;
        res := 0;
      } else {
        res := ERROR_TOO_MANY_POSTS;
      }
    }

    method Pop() returns (r: Result<Screen.Picture<B>>)
      requires queueSemaphore > 0
      modifies this
      ensures queueSemaphore == old(queueSemaphore) - 1
      ensures old(queue) == multiset{} ==> r == RuntimeError("empty queue") && queue == old(queue)
      ensures old(queue) != multiset{} ==>
                && r.Ok?
                && r.value in old(queue)
                && (forall x :: x in old(queue) ==> r.value.number <= x.number)
                && queue == old(queue) - multiset{r.value}
    {
      queueSemaphore := queueSemaphore - 1;
      if queue == multiset{} {
        return RuntimeError("empty queue");
      }
      ghost var some := Screen.TopExists(queue);
      var top :| Screen.IsTop(queue, top);
      queue := queue - multiset{top};
      r := Ok(top);
    }
  }

  /** How a WM_PAINT ends, if it does. */
  datatype Painting<B> = Nothing | Shown(p: Screen.Picture<B>) | WaitsForever

  /** frameNumBmpQueue and loadFrame as the decoder, the timer and WM_PAINT use them. */
  class PaintState<B(==)> {
    const frameNumBmpQueue: ThreadSafePrioQueue<B>
    var loadFrame: bool
    ghost var log: seq<Screen.Event<B>>
    ghost var failedReleases: nat

    ghost function Value(): Screen.State<B>
      reads this, frameNumBmpQueue
    {
      Screen.State(frameNumBmpQueue.queue, loadFrame, log)
    }

    /** Every picture queued has its unit unless the release failed: under bmpMutex no push or pop is half done. */
    ghost predicate Valid()
      reads this, frameNumBmpQueue
    {
      frameNumBmpQueue.queueSemaphore + failedReleases == |frameNumBmpQueue.queue| && Screen.Inv(Value())
    }

    constructor ()
      ensures Valid() && Value() == Screen.Init() && failedReleases == 0 && fresh(frameNumBmpQueue)
    {
      frameNumBmpQueue := new ThreadSafePrioQueue<B>();
      loadFrame := false;
      log, failedReleases := [], 0;
    }

    /** The decoder's push of a decoded picture, which it does not check: beyond MAXINT units the release fails. */
    method QueuePicture(p: Screen.Picture<B>)
      requires Valid()
      modifies this`log, this`failedReleases, frameNumBmpQueue
      ensures Valid() && Value() == Screen.PushPicture(old(Value()), p)
      ensures failedReleases == old(failedReleases) + if old(frameNumBmpQueue.queueSemaphore) < 0x7FFF_FFFF then 0 else 1
      ensures |old(frameNumBmpQueue.queue)| < 0x7FFF_FFFF ==> failedReleases == old(failedReleases)
    {
      Screen.PushKeepsInv(Value(), p);
      var res := frameNumBmpQueue.Push(p);
      if res != 0 {
        failedReleases := failedReleases + 1;
      }
      log := log + [Screen.Queued(p)];
    }

    method OnTimer()
      requires Valid()
      modifies this
      ensures Valid() && Value() == Screen.Tick(old(Value()))
    {
      Screen.TickKeepsInv(Value());
      loadFrame := true;
      log := log + [Screen.Ticked];
    }

    /**
      WM_PAINT: nothing without a tick or without a picture, otherwise the picture
      with the least number. With a picture but no unit, that is, when every
      picture queued has lost its release, the call waits for ever in Pop.
     */
    method OnPaint() returns (outcome: Painting<B>)
      requires Valid()
      modifies this`log, this`loadFrame, frameNumBmpQueue
      ensures Valid() && failedReleases == old(failedReleases)
      ensures outcome.Nothing? <==> !old(loadFrame) || old(frameNumBmpQueue.queue) == multiset{}
      ensures outcome.WaitsForever? <==> old(loadFrame) && old(frameNumBmpQueue.queue) != multiset{} && failedReleases == |old(frameNumBmpQueue.queue)|
      ensures !outcome.Shown? ==> Value() == old(Value())
      ensures outcome.Shown? ==> Screen.CanPaint(old(Value()), outcome.p) && Value() == Screen.Paint(old(Value()), outcome.p)
    {
      if !loadFrame || frameNumBmpQueue.queue == multiset{} {
        return Nothing;
      }
      if frameNumBmpQueue.queueSemaphore == 0 {
        return WaitsForever;
      }
      ghost var before := Value();
      var r := frameNumBmpQueue.Pop();
      Screen.PaintKeepsInv(before, r.value);
      loadFrame := false;
      log := log + [Screen.Painted(r.value)];
      outcome := Shown(r.value);
    }
  }
}

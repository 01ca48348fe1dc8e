/** eventloop.go, queue.go and the loop of epoll.go, as the code one thread runs. The ghost trace shows that this code
    performs the actions of WakeProtocol in an order that protocol allows, so its theorems are about this code. */
module EventLoops {
  import opened WakeProtocol

  /** A closure in the queue; running it may hand further jobs to Trigger. */
  datatype Job = Job(id: int, posts: seq<Job>)

  /** The reaction of an EventHandler to one event, as far as the loop is concerned: the jobs it posts. */
  datatype Handler = Handler(posts: seq<Job>)

  class AsyncJobQueue {
    var jobs: seq<Job>

    constructor ()
      ensures jobs == []
    {
      jobs := [];
    }

    method Push(job: Job) returns (jobsNum: int)
      modifies this
      ensures jobs == old(jobs) + [job] && jobsNum == |jobs|
    {
      jobs := jobs + [job];
      jobsNum := |jobs|;
    }

    /** The critical section of ExecuteJobs. */
    method TakeAll() returns (batch: seq<Job>)
      modifies this
      ensures batch == old(jobs) && jobs == []
    {
      batch := jobs;
      jobs := [];
    }
  }

  /** The jobs that a list of jobs posts while it runs. */
  function Posts(jobs: seq<Job>): seq<Job>
    decreases |jobs|
  {
    if jobs == [] then [] else Posts(jobs[..|jobs| - 1]) + jobs[|jobs| - 1].posts
  }

  class EventLoop {
    const asyncJobQueue: AsyncJobQueue
    const handlers: map<int, Handler>
    var eventHandling: bool
    var wakeups: nat          // the eventfd's counter
    var executed: seq<Job>
    var handled: seq<int>     // the descriptors whose handlers have been called
    ghost var trace: seq<Action<Job>>

    ghost predicate Valid()
      reads this, asyncJobQueue
    {
      && IsRun(trace)
      && eventHandling == After(trace).eventHandling
      && wakeups == After(trace).counter
      && executed == After(trace).executed
      && asyncJobQueue.jobs == After(trace).queue
    }

    constructor (handlers: map<int, Handler>)
      ensures Valid() && trace == [] && handled == [] && fresh(asyncJobQueue) && this.handlers == handlers
    {
      asyncJobQueue := new AsyncJobQueue();
      this.handlers := handlers;
      eventHandling, wakeups, executed, handled, trace := false, 0, [], [], [];
    }

    ghost function Model(): State<Job>
      requires IsRun(trace)
      reads this
    {
      After(trace)
    }

    /** Records that the code has just performed an action of the protocol, which must be one the protocol allows. */
    ghost method Record(a: Action<Job>)
      requires IsRun(trace) && Enabled(Model(), a)
      modifies `trace
      ensures trace == old(trace) + [a] && IsRun(trace) && Model() == Apply(old(Model()), a)
      ensures !(a.Push? || a.Check? || a.Wake?) ==> SameStages(old(Model()), Model())
    {
      hide Apply, Enabled, SameStages;
      Extend(trace, a);
      if !(a.Push? || a.Check? || a.Wake?) { LoopKeepsStages(Model(), a); }
      trace := trace + [a];
    }

    /** Queues the job, and wakes the loop unless it is seen handling an event. */
    method Trigger(ghost thread: nat, job: Job)
      requires Valid() && StageOf(Model(), thread) == Idle
      requires thread == LOOP ==> Model().pc.Handling? || Model().pc.Running?
      modifies `wakeups, `trace, asyncJobQueue
      ensures Valid() && Model().pc == old(Model()).pc && Model().executed == old(Model()).executed
      ensures asyncJobQueue.jobs == old(asyncJobQueue.jobs) + [job]
      ensures wakeups == old(wakeups) + if eventHandling then 0 else 1
      ensures SameStages(old(Model()), Model())
    {
      var _ := asyncJobQueue.Push(job);
      Record(Push(thread, job));
      Record(Check(thread));
      if !eventHandling {
        wakeups := wakeups + 1;
        Record(Wake(thread));
      }
    }

    /** A handler or a job posting its jobs, on the loop thread. */
    method PostAll(jobs: seq<Job>)
      requires Valid() && StageOf(Model(), LOOP) == Idle && (Model().pc.Handling? || Model().pc.Running?)
      modifies `wakeups, `trace, asyncJobQueue
      ensures Valid() && Model().pc == old(Model()).pc && Model().executed == old(Model()).executed
      ensures asyncJobQueue.jobs == old(asyncJobQueue.jobs) + jobs
      ensures wakeups == old(wakeups) + if eventHandling then 0 else |jobs|
      ensures SameStages(old(Model()), Model())
    {
      for i := 0 to |jobs|
        invariant Valid() && Model().pc == old(Model()).pc && Model().executed == old(Model()).executed
        invariant asyncJobQueue.jobs == old(asyncJobQueue.jobs) + jobs[..i]
        invariant wakeups == old(wakeups) + if eventHandling then 0 else i
        invariant SameStages(old(Model()), Model())
      {
        Trigger(LOOP, jobs[i]);
        assert jobs[..i + 1] == jobs[..i] + [jobs[i]];
      }
      assert jobs[..|jobs|] == jobs;
    }

    method ExecuteJob(job: Job)
      requires Valid() && StageOf(Model(), LOOP) == Idle && !eventHandling
      requires Model().pc.Running? && Model().pc.rest != [] && Model().pc.rest[0] == job
      modifies `executed, `wakeups, `trace, asyncJobQueue
      ensures Valid() && Model().pc == old(Model()).pc.(rest := old(Model()).pc.rest[1..])
      ensures executed == old(executed) + [job]
      ensures asyncJobQueue.jobs == old(asyncJobQueue.jobs) + job.posts
      ensures wakeups == old(wakeups) + |job.posts|
      ensures SameStages(old(Model()), Model())
    {
      executed := executed + [job];
      Record(RunJob);
      PostAll(job.posts);
    }

    /** Takes the whole list out and runs it; what the jobs post waits for the next time, with a wake-up each. */
    method ExecuteJobs()
      requires Valid() && Model().pc.Cleared? && StageOf(Model(), LOOP) == Idle && !eventHandling
      modifies `executed, `wakeups, `trace, asyncJobQueue
      ensures Valid()
      ensures executed == old(executed) + old(asyncJobQueue.jobs)
      ensures asyncJobQueue.jobs == Posts(old(asyncJobQueue.jobs))
      ensures var pc := old(Model()).pc; Model().pc == Running(pc.events, pc.wake, pc.forWake, [])
      ensures SameStages(old(Model()), Model())
      ensures wakeups == old(wakeups) + |Posts(old(asyncJobQueue.jobs))|
    {
      ghost var pc := Model().pc;
      var jobs := SwapOut();
      hide Apply, Enabled, After, IsRun;
      for i := 0 to |jobs|
        invariant Valid() && !eventHandling
        invariant Model().pc == Running(pc.events, pc.wake, pc.forWake, jobs[i..])
        invariant executed == old(executed) + jobs[..i]
        invariant asyncJobQueue.jobs == Posts(jobs[..i])
        invariant wakeups == old(wakeups) + |Posts(jobs[..i])|
        invariant SameStages(old(Model()), Model())
      {
        ExecuteJob(jobs[i]);
        assert jobs[..i + 1][..i] == jobs[..i];
        assert jobs[i..][1..] == jobs[i + 1..];
      }
      assert jobs[..|jobs|] == jobs;
    }

    method SwapOut() returns (batch: seq<Job>)
      requires Valid() && Model().pc.Cleared?
      modifies `trace, asyncJobQueue
      ensures Valid() && batch == old(asyncJobQueue.jobs) && asyncJobQueue.jobs == []
      ensures var pc := old(Model()).pc; Model().pc == Running(pc.events, pc.wake, pc.forWake, batch)
      ensures SameStages(old(Model()), Model())
    {
      batch := asyncJobQueue.TakeAll();
      Record(Swap);
    }

    /** Whether the loop is about to call handleEvent with this fd; -1 is a wake-up. */
    ghost predicate AtEvent(fd: int)
      requires IsRun(trace)
      reads this
    {
      && Model().pc.Batch?
      && if fd == -1 then Model().pc == Batch([], true)
         else Model().pc.events != [] && Model().pc.events[0] == Socket(fd)
    }

    /** The handler that an event is for, if any. */
    ghost function Found(fd: int): seq<int> {
      if fd != -1 && fd in handlers then [fd] else []
    }

    ghost function FoundAll(events: seq<Ready>): seq<int>
      decreases |events|
    {
      if events == [] then []
      else
        var before, last := FoundAll(events[..|events| - 1]), events[|events| - 1];
        if last.Socket? then before + Found(last.fd) else before
    }

    /** One call for each event of a socket that has a handler, and none for any other. */
    lemma {:induction false} FoundExactly(events: seq<Ready>, fd: int)
      requires Socket(-1) !in events
      ensures multiset(FoundAll(events))[fd] == if fd in handlers then multiset(events)[Socket(fd)] else 0
      decreases |events|
    {
      if events != [] {
        var before, last := events[..|events| - 1], events[|events| - 1];
        assert events == before + [last];
        FoundExactly(before, fd);
      }
    }

    ghost function Posted(fd: int): seq<Job> {
      if fd != -1 && fd in handlers then handlers[fd].posts else []
    }

    /** The first half of handleEvent: raise the flag and call the handler. */
    method CallHandler(fd: int)
      requires Valid() && StageOf(Model(), LOOP) == Idle && AtEvent(fd)
      modifies `eventHandling, `wakeups, `handled, `trace, asyncJobQueue
      ensures Valid() && eventHandling
      ensures handled == old(handled) + if fd != -1 && fd in handlers then [fd] else []
      ensures Model().pc == if fd == -1 then Handling([], true, true)
                            else Handling(old(Model()).pc.events[1..], old(Model()).pc.wake, false)
      ensures asyncJobQueue.jobs ==
              old(asyncJobQueue.jobs) + if fd != -1 && fd in handlers then handlers[fd].posts else []
      ensures executed == old(executed)
      ensures SameStages(old(Model()), Model())
    {
      ghost var s0 := Model();
      eventHandling := true;
      Record(if fd == -1 then EndBatch else Dispatch);
      ghost var s1 := Model();
      if fd != -1 {
        if fd in handlers {
          handled := handled + [fd];
          PostAll(handlers[fd].posts);
          SameStagesChain(s0, s1, Model());
        }
      }
    }

    method LowerFlag()
      requires Valid() && Model().pc.Handling? && StageOf(Model(), LOOP) == Idle
      modifies `eventHandling, `trace
      ensures Valid() && !eventHandling
      ensures var pc := old(Model()).pc; Model().pc == Cleared(pc.events, pc.wake, pc.forWake)
      ensures SameStages(old(Model()), Model())
    {
      eventHandling := false;
      Record(Clear);
    }

    /** The return of handleEvent. */
    method Leave()
      requires Valid() && Model().pc.Running? && Model().pc.rest == [] && StageOf(Model(), LOOP) == Idle
      modifies `trace
      ensures Valid()
      ensures var pc := old(Model()).pc; Model().pc == if pc.forWake then Blocked else Batch(pc.events, pc.wake)
      ensures SameStages(old(Model()), Model())
    {
      Record(Finish);
    }

    /** The second half of handleEvent: lower the flag and run the jobs. */
    method ClearAndDrain()
      requires Valid() && Model().pc.Handling? && StageOf(Model(), LOOP) == Idle
      modifies `eventHandling, `executed, `wakeups, `trace, asyncJobQueue
      ensures Valid() && !eventHandling
      ensures var pc := old(Model()).pc; Model().pc == if pc.forWake then Blocked else Batch(pc.events, pc.wake)
      ensures executed == old(executed) + old(asyncJobQueue.jobs)
      ensures asyncJobQueue.jobs == Posts(old(asyncJobQueue.jobs))
      ensures SameStages(old(Model()), Model())
    {
      hide After, IsRun, Posts;
      ghost var s0 := Model();
      LowerFlag();
      ghost var s1 := Model();
      ExecuteJobs();
      ghost var s2 := Model();
      SameStagesChain(s0, s1, s2);
      Leave();
      SameStagesChain(s0, s2, Model());
    }

    /** handleEvent: the handler runs with the flag up, the jobs with the flag down. */
    method HandleEvent(fd: int)
      requires Valid() && StageOf(Model(), LOOP) == Idle && AtEvent(fd)
      modifies this, asyncJobQueue
      ensures Valid() && !eventHandling
      ensures Model().pc == if fd == -1 then Blocked
                            else Batch(old(Model()).pc.events[1..], old(Model()).pc.wake)
      ensures executed == old(executed) + (old(asyncJobQueue.jobs) + Posted(fd))
      ensures asyncJobQueue.jobs == Posts(old(asyncJobQueue.jobs) + Posted(fd))
      ensures handled == old(handled) + Found(fd)
      ensures SameStages(old(Model()), Model())
    {
      ghost var s0 := Model();
      CallHandler(fd);
      ghost var s1 := Model();
      hide After, IsRun, Posts;
      ClearAndDrain();
      SameStagesChain(s0, s1, Model());
    }

    /** One event of a batch: a socket's handler is called, or the eventfd is read. */
    method TakeEvent(event: Ready) returns (wake: bool)
      requires Valid() && StageOf(Model(), LOOP) == Idle && event != Socket(-1)
      requires Model().pc.Batch? && Model().pc.events != [] && Model().pc.events[0] == event
      modifies this, asyncJobQueue
      ensures Valid() && StageOf(Model(), LOOP) == Idle && wake == event.WakeFd?
      ensures var pc := old(Model()).pc; Model().pc == Batch(pc.events[1..], pc.wake || wake)
      ensures handled == old(handled) + if event.Socket? then Found(event.fd) else []
    {
      match event
      case Socket(fd) =>
        HandleEvent(fd);
        wake := false;
      case WakeFd =>
        wakeups := 0;
        Record(ReadWake);
        wake := true;
    }

    /** One turn of Poll's loop, for the events that epoll_wait returned. It calls the handler of each socket event
        once, in order; and if it ends with nothing in the eventfd, every job whose Trigger has returned has been
        executed. */
    method PollOnce(events: seq<Ready>)
      requires Valid() && Model().pc.Blocked? && StageOf(Model(), LOOP) == Idle
      requires LegalBatch(events, wakeups) && Socket(-1) !in events
      modifies this, asyncJobQueue
      ensures Valid() && Model().pc.Blocked? && StageOf(Model(), LOOP) == Idle
      ensures handled == old(handled) + FoundAll(events)
      ensures wakeups == 0 ==>
                forall i: nat :: i < |Model().pushed| && !Unfinished(Model(), i) ==> i < |executed|
    {
      hide After, IsRun;
      var wake := false;
      ReturnFromWait(events);
      for i := 0 to |events|
        invariant Valid() && Model().pc == Batch(events[i..], wake) && StageOf(Model(), LOOP) == Idle
        invariant handled == old(handled) + FoundAll(events[..i])
      {
        assert events[i..][1..] == events[i + 1..];
        assert events[..i + 1][..i] == events[..i];
        var wakeNow := TakeEvent(events[i]);
        wake := wake || wakeNow;
      }
      assert events[..|events|] == events && events[|events|..] == [];
      if wake {
        HandleEvent(-1);
        wake := false;
      } else {
        EndOfBatch();
      }
      if wakeups == 0 { NoLostWakeup(trace); }
    }

    method ReturnFromWait(events: seq<Ready>)
      requires Valid() && Model().pc.Blocked? && StageOf(Model(), LOOP) == Idle && LegalBatch(events, wakeups)
      modifies `trace
      ensures Valid() && Model().pc == Batch(events, false) && StageOf(Model(), LOOP) == Idle
    {
      Record(Wait(events));
    }

    /** The end of a batch without a wake-up. */
    method EndOfBatch()
      requires Valid() && Model().pc == Batch([], false) && StageOf(Model(), LOOP) == Idle
      modifies `trace
      ensures Valid() && Model().pc.Blocked? && StageOf(Model(), LOOP) == Idle
    {
      Record(EndBatch);
    }
  }
}

/**
  The thread pool as a sequential state machine. Every call (a post, a
  terminate, one step of one worker thread) is one atomic transition of a
  `Pool`; the interleaving of worker threads is the order of the steps.

  Besides the fields of `threadpool_t` the state carries three traces that
  exist only for the proofs: the tasks accepted by `thread_pool_post`, the
  tasks dequeued by workers, and the handler invocations the workers made.
*/
module ThreadPool {

  import opened Options
  import opened TaskQueue

  /** Where a worker thread is in `__thrdpool_worker`. */
  datatype Worker =
    | AtLoopHead   // about to test `quit` at the top of the worker loop
    | Parked       // inside `__get_task`, waiting on the condition variable
    | Exited       // the thread function has returned

  /**
    `threadpool_t`: the queue, the `quit` flag and one entry per started
    thread (`thread_count == |workers|`), plus the traces `posted` (accepted
    tasks), `taken` (tasks dequeued by workers) and `calls` (handler calls).
  */
  datatype Pool = Pool(
    queue: Queue,
    quit: bool,
    workers: seq<Worker>,
    posted: seq<Task>,
    taken: seq<Task>,
    calls: seq<Task>)

  datatype PostResult = PostResult(pool: Pool, code: int)

  /** The environment's moves: a post (with the outcome of its `malloc`), a terminate, a worker step. */
  datatype Event =
    | PostEv(func: Handler, arg: nat, alloc: Option<Addr>)
    | TerminateEv
    | StepEv(worker: nat)

  /** The handler calls a worker makes for the dequeued tasks `ts`: one per task whose handler is not NULL. */
  function Invoked(ts: seq<Task>): seq<Task>
    decreases |ts|
  {
    if ts == [] then []
    else Invoked(ts[..|ts| - 1]) + (if ts[|ts| - 1].func.Fn? then [ts[|ts| - 1]] else [])
  }

  /**
    The pool invariant over the queue's node list `ns`: the queue is
    well formed, every accepted task has either been dequeued or is still
    pending, in acceptance order, handlers were called exactly for the
    dequeued tasks that have one, and once `quit` is set the queue no longer
    lets consumers wait.
  */
  ghost predicate Inv(p: Pool, ns: seq<Addr>) {
    && Repr(p.queue, ns)
    && p.posted == p.taken + Payloads(p.queue.heap, ns)
    && p.calls == Invoked(p.taken)
    && (p.quit ==> !p.queue.block)
  }

  // ---------------------------------------------------------------------
  // Operations

  /**
    `thread_pool_post`: -1 and no change once `quit` is set or when the task
    cannot be allocated (`alloc == None`); otherwise the task with `func` and
    `arg` is appended to the queue and 0 is returned.
  */
  function Post(p: Pool, func: Handler, arg: nat, alloc: Option<Addr>): (r: PostResult)
    requires alloc.Some? ==> alloc.value !in p.queue.heap && TailInHeap(p.queue)
    ensures r.code == 0 <==> !p.quit && alloc.Some?
    ensures r.code != 0 ==> r == PostResult(p, -1)
    ensures r.code == 0 ==> r.pool.posted == p.posted + [Task(func, arg)]
    ensures r.code == 0 ==> r.pool.queue.heap.Keys == p.queue.heap.Keys + {alloc.value}
    ensures r.code == 0 ==> r.pool.queue.heap[alloc.value] == Node(Null, Task(func, arg))
    ensures r.code == 0 ==> r.pool.queue.tail == NextSlot(alloc.value)
    ensures r.pool.quit == p.quit && r.pool.workers == p.workers
    ensures r.pool.taken == p.taken && r.pool.calls == p.calls
    ensures r.pool.queue.block == p.queue.block
  {
    if p.quit then PostResult(p, -1)
    else
      match alloc
      case None => PostResult(p, -1)
      case Some(a) =>
        var t := Task(func, arg);
        PostResult(p.(queue := AddTask(p.queue, a, t), posted := p.posted + [t]), 0)
  }

  /**
    `thread_pool_terminate`: set `quit` and clear the queue's `block` flag.
    The pending tasks and the workers are left alone.
  */
  function Terminate(p: Pool): (r: Pool)
    ensures r.quit && !r.queue.block
    ensures r.queue.head == p.queue.head && r.queue.tail == p.queue.tail && r.queue.heap == p.queue.heap
    ensures r.workers == p.workers && r.posted == p.posted && r.taken == p.taken && r.calls == p.calls
  {
    p.(quit := true, queue := Nonblock(p.queue))
  }

  /**
    Worker `i` makes one pass of `__get_task`'s loop and, when that yields a
    task, runs the rest of its loop iteration: the node is freed and the
    handler, when not NULL, is called with the context.
  */
  function Retrieve(p: Pool, i: nat): Pool
    requires i < |p.workers| && HeadInHeap(p.queue)
  {
    var f := GetTask(p.queue);
    match f.outcome
    case Got(n) =>
      p.(queue := f.queue,
         workers := p.workers[i := AtLoopHead],
         taken := p.taken + [n.task],
         calls := if n.task.func.Fn? then p.calls + [n.task] else p.calls)
    case Closed => p.(workers := p.workers[i := Exited])
    case Park => p.(workers := p.workers[i := Parked])
  }

  /**
    One step of worker thread `i` in `__thrdpool_worker`. At the loop head
    the worker exits when `quit` is set, even if tasks are pending; a parked
    worker that wakes up pops again without looking at `quit`.
  */
  function WorkerStep(p: Pool, i: nat): (r: Pool)
    requires i < |p.workers| && HeadInHeap(p.queue)
    ensures |r.workers| == |p.workers|
    ensures forall j :: 0 <= j < |p.workers| && j != i ==> r.workers[j] == p.workers[j]
    ensures r.quit == p.quit && r.queue.block == p.queue.block && r.posted == p.posted
    ensures p.workers[i] == Exited ==> r == p
    ensures r.workers[i] == Exited <==>
      || p.workers[i] == Exited
      || (p.workers[i] == AtLoopHead && p.quit)
      || (p.queue.head == Null && !p.queue.block)
    ensures r.workers[i] == Parked ==> p.queue.head == Null && p.queue.block
    ensures (p.workers[i] == Parked || (p.workers[i] == AtLoopHead && !p.quit)) ==>
      && (p.queue.head.Ref? ==> r.taken != p.taken && r.workers[i] == AtLoopHead)
      && (p.queue.head == Null && p.queue.block ==> r.workers[i] == Parked)
    ensures r.taken == p.taken ==> r.calls == p.calls && r.queue == p.queue
    ensures r.taken != p.taken ==>
      && p.queue.head.Ref?
      && r.queue == PopTask(p.queue).queue
      && r.taken == p.taken + [p.queue.heap[p.queue.head.addr].task]
      && r.calls == p.calls + (if r.taken[|p.taken|].func.Fn? then [r.taken[|p.taken|]] else [])
  {
    match p.workers[i]
    case Exited => p
    case AtLoopHead => if p.quit then p.(workers := p.workers[i := Exited]) else Retrieve(p, i)
    case Parked => Retrieve(p, i)
  }

  /** Whether an event is a legal move: a fresh address from `malloc`, an existing worker. */
  predicate Enabled(p: Pool, e: Event) {
    match e
    case PostEv(_, _, alloc) => alloc.Some? ==> alloc.value !in p.queue.heap && TailInHeap(p.queue)
    case TerminateEv => true
    case StepEv(i) => i < |p.workers| && HeadInHeap(p.queue)
  }

  function Apply(p: Pool, e: Event): Pool
    requires Enabled(p, e)
  {
    match e
    case PostEv(func, arg, alloc) => Post(p, func, arg, alloc).pool
    case TerminateEv => Terminate(p)
    case StepEv(i) => WorkerStep(p, i)
  }

  /** The pool after the events `evs`, or None when one of them is not a legal move. */
  function Run(p: Pool, evs: seq<Event>): Option<Pool>
    decreases |evs|
  {
    if evs == [] then Some(p)
    else if Enabled(p, evs[0]) then Run(Apply(p, evs[0]), evs[1..])
    else None
  }

  function Rank(w: Worker): nat {
    match w
    case Exited => 0
    case AtLoopHead => 1
    case Parked => 2
  }

  /**
    The joins of `__threads_terminate` and `thread_pool_waitdone`: once
    shutdown has been requested, every worker reaches `Exited` in at most two
    of its own steps, so joining each thread in turn terminates.
  */
  method JoinAll(p: Pool, ghost ns: seq<Addr>) returns (r: Pool, ghost ns': seq<Addr>)
    requires Inv(p, ns) && p.quit
    ensures Inv(r, ns') && r.quit
    ensures |r.workers| == |p.workers|
    ensures forall j :: 0 <= j < |r.workers| ==> r.workers[j] == Exited
    ensures r.posted == p.posted && p.taken <= r.taken
    ensures ns == [] ==> ns' == [] && r.taken == p.taken
  {
    r, ns' := p, ns;
    var i := 0;
    while i < |r.workers|
      invariant |r.workers| == |p.workers| && 0 <= i <= |r.workers|
      invariant Inv(r, ns') && r.quit
      invariant forall j :: 0 <= j < i ==> r.workers[j] == Exited
      invariant r.posted == p.posted && p.taken <= r.taken
      invariant ns == [] ==> ns' == [] && r.taken == p.taken
    {
      while r.workers[i] != Exited
        invariant |r.workers| == |p.workers| && i < |r.workers|
        invariant Inv(r, ns') && r.quit
        invariant forall j :: 0 <= j < i ==> r.workers[j] == Exited
        invariant r.posted == p.posted && p.taken <= r.taken
        invariant ns == [] ==> ns' == [] && r.taken == p.taken
        decreases Rank(r.workers[i])
      {
        ns' := WorkerStepInv(r, ns', i);
        r := WorkerStep(r, i);
      }
      i := i + 1;
    }
  }

  /**
    `__threads_create`: with the attribute initialised and the handle array
    allocated, threads are spawned in order until the first `pthread_create`
    failure; `thread_count` records how many started. Anything short of the
    requested count is rolled back by `__threads_terminate`: `quit` is set, the
    queue stops blocking and every started thread is joined.
    `spawnOk[j]` is the outcome of the `j`-th `pthread_create`.
  */
  method ThreadsCreate(p: Pool, requested: nat, attrInit: int, arrayOk: bool, spawnOk: seq<bool>)
    returns (ret: int, r: Pool)
    requires Inv(p, []) && !p.quit && p.workers == []
    requires |spawnOk| == requested
    ensures ret == 0 <==> attrInit == 0 && arrayOk && forall j :: 0 <= j < requested ==> spawnOk[j]
    ensures attrInit != 0 ==> ret == attrInit && r == p
    ensures attrInit == 0 && !arrayOk ==> ret == -1 && r == p
    ensures attrInit == 0 && arrayOk ==>
      && |r.workers| <= requested
      && (forall j :: 0 <= j < |r.workers| ==> spawnOk[j])
      && (|r.workers| < requested ==> !spawnOk[|r.workers|])
    ensures ret == 0 ==> r == p.(workers := seq(requested, _ => AtLoopHead))
    ensures attrInit == 0 && arrayOk && ret != 0 ==>
      && ret == -1
      && r.quit && !r.queue.block
      && (forall j :: 0 <= j < |r.workers| ==> r.workers[j] == Exited)
    ensures Inv(r, []) && r.posted == p.posted && r.calls == p.calls
  {
    if attrInit != 0 {
      return attrInit, p;
    }
    if !arrayOk {
      return -1, p;
    }
    var i := 0;
    while i < requested
      invariant 0 <= i <= requested
      invariant forall j :: 0 <= j < i ==> spawnOk[j]
    {
      if !spawnOk[i] {
        break;
      }
      i := i + 1;
    }
    r := p.(workers := seq(i, _ => AtLoopHead));
    if i == requested {
      return 0, r;
    }
    ghost var ns';
    r, ns' := JoinAll(Terminate(r), []);
    ret := -1;
  }

  /**
    `thread_pool_create`: allocate the pool, create the queue with `quit`
    cleared and start the threads; on any failure everything acquired is
    released and NULL is returned, so a partially built pool never escapes.
  */
  method Create(requested: nat, poolAlloc: bool, queueAlloc: bool, mutexOk: bool, condOk: bool,
                attrInit: int, arrayOk: bool, spawnOk: seq<bool>)
    returns (r: Option<Pool>)
    requires |spawnOk| == requested
    ensures r.Some? <==>
      && poolAlloc && queueAlloc && mutexOk && condOk && attrInit == 0 && arrayOk
      && forall j :: 0 <= j < requested ==> spawnOk[j]
    ensures r.Some? ==> Inv(r.value, []) && !r.value.quit && r.value.queue.block
    ensures r.Some? ==> r.value.workers == seq(requested, _ => AtLoopHead)
    ensures r.Some? ==> r.value.posted == [] && r.value.taken == [] && r.value.calls == []
  {
    if !poolAlloc {
      return None;
    }
    var q := QueueCreate(queueAlloc, mutexOk, condOk);
    if q.None? {
      return None;
    }
    var p := Pool(q.value, false, [], [], [], []);
    var ret, started := ThreadsCreate(p, requested, attrInit, arrayOk, spawnOk);
    if ret == 0 {
      return Some(started);
    }
    var _, _ := Destroy(started.queue, []);
    return None;
  }

  /**
    `thread_pool_waitdone` after a terminate: join every worker, then destroy
    the queue. Each accepted task was either run by a worker or discarded
    undone by the destroy, exactly once and in acceptance order.
  */
  method Waitdone(p: Pool, ghost ns: seq<Addr>) returns (joined: Pool, discarded: seq<Task>)
    requires Inv(p, ns) && p.quit
    ensures |joined.workers| == |p.workers|
    ensures forall j :: 0 <= j < |joined.workers| ==> joined.workers[j] == Exited
    ensures joined.taken + discarded == p.posted
    ensures p.taken <= joined.taken
    ensures joined.calls == Invoked(joined.taken)
  {
    ghost var ns';
    joined, ns' := JoinAll(p, ns);
    var nodes, _ := Destroy(joined.queue, ns');
    discarded := seq(|nodes|, i requires 0 <= i < |nodes| => nodes[i].task);
    assert discarded == Payloads(joined.queue.heap, ns');
  }

  // ---------------------------------------------------------------------
  // Lemmas

  lemma InvokedSnoc(ts: seq<Task>, t: Task)
    ensures Invoked(ts + [t]) == Invoked(ts) + (if t.func.Fn? then [t] else [])
  {
  }

  /** `thread_pool_post` keeps the invariant; an accepted task becomes the last pending one. */
  lemma PostInv(p: Pool, ns: seq<Addr>, func: Handler, arg: nat, alloc: Option<Addr>) returns (ns': seq<Addr>)
    requires Inv(p, ns)
    requires alloc.Some? ==> alloc.value !in p.queue.heap
    ensures alloc.Some? ==> TailInHeap(p.queue)
    ensures Inv(Post(p, func, arg, alloc).pool, ns')
    ensures ns' == if Post(p, func, arg, alloc).code == 0 then ns + [alloc.value] else ns
  {
    ReprHeadInHeap(p.queue, ns);
    var r := Post(p, func, arg, alloc);
    if r.code == 0 {
      AddTaskRepr(p.queue, ns, alloc.value, Task(func, arg));
      ns' := ns + [alloc.value];
    } else {
      ns' := ns;
    }
  }

  /** A worker step keeps the invariant, consuming at most the oldest pending task. */
  lemma WorkerStepInv(p: Pool, ns: seq<Addr>, i: nat) returns (ns': seq<Addr>)
    requires Inv(p, ns) && i < |p.workers|
    ensures HeadInHeap(p.queue)
    ensures Inv(WorkerStep(p, i), ns')
    ensures ns' == ns || (ns != [] && ns' == ns[1..] && WorkerStep(p, i).taken == p.taken + [p.queue.heap[ns[0]].task])
    ensures ns' == ns ==> WorkerStep(p, i).taken == p.taken
  {
    ReprHeadInHeap(p.queue, ns);
    var r := WorkerStep(p, i);
    if r.taken == p.taken {
      ns' := ns;
    } else {
      TakeInv(p, ns, r);
      ns' := ns[1..];
    }
  }

  /** Dequeuing the head task moves its payload from the pending contents to the end of `taken`. */
  lemma TakeInv(p: Pool, ns: seq<Addr>, r: Pool)
    requires Inv(p, ns) && p.queue.head.Ref?
    requires r.queue == PopTask(p.queue).queue
    requires r.quit == p.quit && r.posted == p.posted
    requires r.taken == p.taken + [p.queue.heap[p.queue.head.addr].task]
    requires r.calls == p.calls + (if r.taken[|p.taken|].func.Fn? then [r.taken[|p.taken|]] else [])
    ensures ns != [] && p.queue.head.addr == ns[0]
    ensures Inv(r, ns[1..])
  {
    ReprHeadInHeap(p.queue, ns);
    PopTaskRepr(p.queue, ns);
    var t := p.queue.heap[ns[0]].task;
    PendingShift(p.posted, p.taken, Payloads(p.queue.heap, ns), Payloads(r.queue.heap, ns[1..]), t);
    InvokedSnoc(p.taken, t);
  }

  /** Moving the first pending task to the end of the dequeued ones keeps their concatenation. */
  lemma PendingShift(posted: seq<Task>, taken: seq<Task>, pending: seq<Task>, rest: seq<Task>, t: Task)
    requires posted == taken + pending && pending != [] && pending[0] == t && rest == pending[1..]
    ensures posted == (taken + [t]) + rest
  {
    assert pending == [t] + rest;
  }

  /** Any legal move keeps the invariant; `quit` and a cleared `block` are never undone. */
  lemma ApplyInv(p: Pool, ns: seq<Addr>, e: Event) returns (ns': seq<Addr>)
    requires Inv(p, ns) && Enabled(p, e)
    ensures Inv(Apply(p, e), ns')
    ensures p.posted <= Apply(p, e).posted && p.taken <= Apply(p, e).taken
    ensures p.quit ==> Apply(p, e).quit && Apply(p, e).posted == p.posted
    ensures !p.queue.block ==> !Apply(p, e).queue.block
    ensures |Apply(p, e).workers| == |p.workers|
    ensures forall j :: 0 <= j < |p.workers| && p.workers[j] == Exited ==> Apply(p, e).workers[j] == Exited
  {
    match e
    case PostEv(func, arg, alloc) =>
      ns' := PostInv(p, ns, func, arg, alloc);
    case TerminateEv =>
      ns' := ns;
    case StepEv(i) =>
      ns' := WorkerStepInv(p, ns, i);
  }

  /**
    Over any legal run: tasks are dequeued in exactly the order they were
    accepted (the dequeued tasks are a prefix of the accepted ones), handlers
    run exactly for the dequeued tasks that have one, shutdown is
    irreversible, no task is accepted after it, and exited workers stay exited.
  */
  lemma {:induction false} RunInv(p: Pool, ns: seq<Addr>, evs: seq<Event>) returns (ns': seq<Addr>)
    requires Inv(p, ns) && Run(p, evs).Some?
    ensures Inv(Run(p, evs).value, ns')
    ensures Run(p, evs).value.taken <= Run(p, evs).value.posted
    ensures Run(p, evs).value.calls == Invoked(Run(p, evs).value.taken)
    ensures p.posted <= Run(p, evs).value.posted && p.taken <= Run(p, evs).value.taken
    ensures p.quit ==> Run(p, evs).value.quit && Run(p, evs).value.posted == p.posted
    ensures !p.queue.block ==> !Run(p, evs).value.queue.block
    ensures |Run(p, evs).value.workers| == |p.workers|
    ensures forall j :: 0 <= j < |p.workers| && p.workers[j] == Exited ==> Run(p, evs).value.workers[j] == Exited
    decreases |evs|
  {
    if evs == [] {
      ns' := ns;
    } else {
      var mid := ApplyInv(p, ns, evs[0]);
      ns' := RunInv(Apply(p, evs[0]), mid, evs[1..]);
    }
  }

  /**
    After `thread_pool_terminate` every legal post is refused with -1, and the
    next step of a worker at its loop head makes it exit, pending tasks or not.
  */
  lemma AfterTerminate(p: Pool, ns: seq<Addr>, func: Handler, arg: nat, alloc: Option<Addr>, i: nat)
    requires Inv(p, ns) && i < |p.workers| && p.workers[i] == AtLoopHead
    requires alloc.Some? ==> alloc.value !in p.queue.heap
    ensures Inv(Terminate(p), ns)
    ensures alloc.Some? ==> TailInHeap(Terminate(p).queue)
    ensures Post(Terminate(p), func, arg, alloc) == PostResult(Terminate(p), -1)
    ensures HeadInHeap(Terminate(p).queue)
    ensures WorkerStep(Terminate(p), i).workers[i] == Exited
    ensures WorkerStep(Terminate(p), i).taken == p.taken
  {
  }
}

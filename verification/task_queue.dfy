/**
  The task queue of the thread pool: an intrusive, singly linked FIFO list
  with a `head` link and a pointer-to-pointer `tail`, plus the `block` flag
  that tells idle consumers whether to wait or give up.

  The heap is explicit: a map from node addresses to nodes. A `Slot` is a
  location that holds a link, so `tail` is either the queue's own `head`
  field or the `next` field of a node, exactly as in the C code. Each
  operation is one atomic step (the spinlock and the condition-variable
  mutex are not modelled). The map holds the nodes the queue owns: `AddTask`
  hands a freshly allocated node to the queue, `PopTask` hands the first node
  back to its caller.
*/
module TaskQueue {

  import opened Options

  /** Address of a heap-allocated task node. */
  type Addr = nat

  /** A `void *` link: NULL or the address of a task node. */
  datatype Ptr = Null | Ref(addr: Addr)

  /** A handler function pointer; the worker skips a NULL handler. */
  datatype Handler = NoHandler | Fn(id: nat)

  /** The payload of a task: the handler and its opaque context pointer. */
  datatype Task = Task(func: Handler, arg: nat)

  /** A `task_t`: the intrusive `next` link followed by the payload. */
  datatype Node = Node(next: Ptr, task: Task)

  /** A location that stores a link: the queue's `head` field or a node's `next` field. */
  datatype Slot = HeadSlot | NextSlot(owner: Addr)

  /** A `task_queue_t` with the nodes it owns. `block` is true while consumers may wait. */
  datatype Queue = Queue(head: Ptr, tail: Slot, block: bool, heap: map<Addr, Node>)

  /** A node handed back by `PopTask`: its address and its payload. */
  datatype Popped = Popped(addr: Addr, task: Task)

  datatype PopResult = PopResult(queue: Queue, popped: Option<Popped>)

  /** The three ways one pass of `__get_task`'s loop can end. */
  datatype Fetch =
    | Got(node: Popped)   // a task was popped and is returned
    | Closed              // the list is empty and `block == 0`: NULL is returned
    | Park                // the list is empty and `block == 1`: the caller waits on the condition

  datatype FetchResult = FetchResult(queue: Queue, outcome: Fetch)

  // ---------------------------------------------------------------------
  // Representation invariant

  /** The `head` link, when set, names a node the queue owns. */
  predicate HeadInHeap(q: Queue) {
    q.head.Ref? ==> q.head.addr in q.heap
  }

  /** The `tail` slot, when it is a `next` field, belongs to a node the queue owns. */
  predicate TailInHeap(q: Queue) {
    q.tail.NextSlot? ==> q.tail.owner in q.heap
  }

  /** The empty list has exactly one representation: `head == NULL` iff `tail == &head`. */
  predicate Canonical(q: Queue) {
    q.head == Null <==> q.tail == HeadSlot
  }

  predicate Distinct(ns: seq<Addr>) {
    forall i, j :: 0 <= i < j < |ns| ==> ns[i] != ns[j]
  }

  /** Following `next` links from `p` visits exactly the nodes `ns`, in order, and then reaches NULL. */
  ghost predicate Chain(heap: map<Addr, Node>, p: Ptr, ns: seq<Addr>)
    decreases |ns|
  {
    if ns == [] then p == Null
    else p == Ref(ns[0]) && ns[0] in heap && Chain(heap, heap[ns[0]].next, ns[1..])
  }

  /** Where `tail` must point for the list of nodes `ns`. */
  function LastSlot(ns: seq<Addr>): Slot {
    if ns == [] then HeadSlot else NextSlot(ns[|ns| - 1])
  }

  /** `q` is a well-formed queue whose list is exactly the distinct nodes `ns` and which owns nothing else. */
  ghost predicate Repr(q: Queue, ns: seq<Addr>) {
    && Chain(q.heap, q.head, ns)
    && q.tail == LastSlot(ns)
    && Distinct(ns)
    && (forall a :: a in q.heap <==> a in ns)
  }

  /** The abstract contents: the payloads of the nodes `ns`, in list order. */
  function Payloads(heap: map<Addr, Node>, ns: seq<Addr>): seq<Task>
    requires forall i :: 0 <= i < |ns| ==> ns[i] in heap
  {
    seq(|ns|, i requires 0 <= i < |ns| => heap[ns[i]].task)
  }

  // ---------------------------------------------------------------------
  // Operations

  /**
    `__task_queue_create`. Allocation of the structure and initialisation of
    its mutex and condition variable may each fail; any failure yields NULL.
  */
  function QueueCreate(allocOk: bool, mutexOk: bool, condOk: bool): (r: Option<Queue>)
    ensures r.Some? <==> allocOk && mutexOk && condOk
    ensures r.Some? ==> Repr(r.value, []) && Payloads(r.value.heap, []) == []
    ensures r.Some? ==> r.value.tail == HeadSlot && r.value.block
  {
    if allocOk && mutexOk && condOk then Some(Queue(Null, HeadSlot, true, map[])) else None
  }

  /** `*s = p`: a store through a link location. */
  function Store(q: Queue, s: Slot, p: Ptr): Queue
    requires s.NextSlot? ==> s.owner in q.heap
  {
    match s
    case HeadSlot => q.(head := p)
    case NextSlot(o) => q.(heap := q.heap[o := q.heap[o].(next := p)])
  }

  /**
    `__add_task`: link the fresh node `a` carrying `t` at the end of the list.
    Its `next` is set to NULL, the slot `tail` refers to receives `a`, and
    `tail` advances to `a`'s own `next` field.
  */
  function AddTask(q: Queue, a: Addr, t: Task): (r: Queue)
    requires a !in q.heap
    requires TailInHeap(q)
    ensures r.heap.Keys == q.heap.Keys + {a}
    ensures r.heap[a] == Node(Null, t)
    ensures r.tail == NextSlot(a) && r.block == q.block
    ensures q.tail == HeadSlot ==> r.head == Ref(a)
    ensures q.tail.NextSlot? ==> r.head == q.head && r.heap[q.tail.owner].next == Ref(a)
    ensures forall b :: b in q.heap ==> r.heap[b].task == q.heap[b].task
    ensures forall b :: b in q.heap && q.tail != NextSlot(b) ==> r.heap[b] == q.heap[b]
    ensures Canonical(q) ==> Canonical(r) && r.head != Null
    ensures HeadInHeap(q) ==> HeadInHeap(r) && TailInHeap(r)
  {
    var q1 := q.(heap := q.heap[a := Node(Null, t)]);
    var q2 := Store(q1, q.tail, Ref(a));
    q2.(tail := NextSlot(a))
  }

  /**
    `__pop_task`: NULL on an empty list; otherwise unlink the first node,
    hand it to the caller and, when the list became empty, reset `tail` to
    the `head` slot.
  */
  function PopTask(q: Queue): (r: PopResult)
    requires HeadInHeap(q)
    ensures q.head == Null ==> r == PopResult(q, None)
    ensures q.head.Ref? ==> r.popped == Some(Popped(q.head.addr, q.heap[q.head.addr].task))
    ensures q.head.Ref? ==> r.queue.head == q.heap[q.head.addr].next
    ensures q.head.Ref? ==> r.queue.heap == q.heap - {q.head.addr}
    ensures r.queue.block == q.block
    ensures Canonical(q) ==> Canonical(r.queue)
  {
    if q.head == Null then PopResult(q, None)
    else
      var a := q.head.addr;
      var next := q.heap[a].next;
      var q1 := q.(head := next, heap := q.heap - {a});
      var q2 := if next == Null then q1.(tail := HeadSlot) else q1;
      PopResult(q2, Some(Popped(a, q.heap[a].task)))
  }

  /**
    One pass of `__get_task`'s loop: a popped task is returned whatever
    `block` says; on an empty list the result is NULL when `block == 0` and
    a wait on the condition variable otherwise.
  */
  function GetTask(q: Queue): (r: FetchResult)
    requires HeadInHeap(q)
    ensures r.outcome.Got? <==> q.head != Null
    ensures r.outcome.Closed? <==> q.head == Null && !q.block
    ensures r.outcome.Park? <==> q.head == Null && q.block
    ensures !r.outcome.Got? ==> r.queue == q
    ensures r.outcome.Got? ==> Some(r.outcome.node) == PopTask(q).popped && r.queue == PopTask(q).queue
  {
    var pr := PopTask(q);
    match pr.popped
    case Some(n) => FetchResult(pr.queue, Got(n))
    case None => if q.block then FetchResult(q, Park) else FetchResult(q, Closed)
  }

  /** `__nonblock`: clear `block` for good; the list is untouched. */
  function Nonblock(q: Queue): (r: Queue)
    ensures !r.block
    ensures r.head == q.head && r.tail == q.tail && r.heap == q.heap
  {
    q.(block := false)
  }

  /**
    `__task_queue_destroy`: pop until the list is empty and free every node,
    without running any handler. Returns the discarded nodes in list order and
    the drained queue, which owns no node any more.
  */
  method Destroy(q: Queue, ghost ns: seq<Addr>) returns (discarded: seq<Popped>, drained: Queue)
    requires Repr(q, ns)
    ensures |discarded| == |ns|
    ensures forall i :: 0 <= i < |ns| ==> discarded[i] == Popped(ns[i], q.heap[ns[i]].task)
    ensures drained.heap == map[] && drained.head == Null && drained.tail == HeadSlot
  {
    var cur := q;
    ghost var k := 0;
    discarded := [];
    while cur.head != Null
      invariant 0 <= k <= |ns|
      invariant Repr(cur, ns[k..])
      invariant Owned(q, cur)
      invariant DrainedUpTo(q, ns, k, discarded)
      decreases |ns| - k
    {
      DrainStep(q, cur, ns, k, discarded);
      var r := PopTask(cur);
      discarded := discarded + [r.popped.value];
      cur := r.queue;
      k := k + 1;
    }
    DrainDone(cur, ns, k);
    drained := cur;
  }

  /** Every node `cur` owns is a node of `q`, unchanged. */
  ghost predicate Owned(q: Queue, cur: Queue) {
    forall a :: a in cur.heap ==> a in q.heap && cur.heap[a] == q.heap[a]
  }

  /** `discarded` holds the first `k` nodes of `q`'s list `ns`, with their payloads. */
  ghost predicate DrainedUpTo(q: Queue, ns: seq<Addr>, k: nat, discarded: seq<Popped>) {
    && k <= |ns| && |discarded| == k
    && forall i :: 0 <= i < k ==> ns[i] in q.heap && discarded[i] == Popped(ns[i], q.heap[ns[i]].task)
  }

  /** One iteration of `Destroy`: the popped node is `ns[k]` and the rest of the list is `ns[k + 1..]`. */
  lemma DrainStep(q: Queue, cur: Queue, ns: seq<Addr>, k: nat, discarded: seq<Popped>)
    requires k < |ns| && Repr(cur, ns[k..]) && Owned(q, cur) && DrainedUpTo(q, ns, k, discarded)
    ensures HeadInHeap(cur) && cur.head != Null && PopTask(cur).popped.Some?
    ensures Repr(PopTask(cur).queue, ns[k + 1..])
    ensures Owned(q, PopTask(cur).queue)
    ensures DrainedUpTo(q, ns, k + 1, discarded + [PopTask(cur).popped.value])
  {
    PopTaskRepr(cur, ns[k..]);
    assert ns[k..][1..] == ns[k + 1..];
  }

  /** `Destroy` stops exactly when every node of the list has been popped, and then owns nothing. */
  lemma DrainDone(cur: Queue, ns: seq<Addr>, k: nat)
    requires k <= |ns| && Repr(cur, ns[k..]) && cur.head == Null
    ensures k == |ns| && cur.heap == map[] && cur.tail == HeadSlot
  {
    ReprHeadInHeap(cur, ns[k..]);
    assert cur.heap.Keys == {};
  }

  // ---------------------------------------------------------------------
  // Lemmas

  /** The nodes of a chain are owned, and the chain starts at its first node. */
  lemma ReprHeadInHeap(q: Queue, ns: seq<Addr>)
    requires Repr(q, ns)
    ensures HeadInHeap(q) && TailInHeap(q) && Canonical(q)
    ensures q.head == Null <==> ns == []
  {
  }

  /** A chain only depends on the `next` fields of its own nodes. */
  lemma {:induction false} ChainFrame(h: map<Addr, Node>, h': map<Addr, Node>, p: Ptr, ns: seq<Addr>)
    requires Chain(h, p, ns)
    requires forall a :: a in ns ==> a in h && a in h' && h'[a].next == h[a].next
    ensures Chain(h', p, ns)
    decreases |ns|
  {
    if ns != [] {
      ChainFrame(h, h', h[ns[0]].next, ns[1..]);
    }
  }

  /** Redirecting the last node's `next` to a node whose `next` is NULL extends the chain by that node. */
  lemma {:induction false} ChainSnoc(h: map<Addr, Node>, h': map<Addr, Node>, p: Ptr, ns: seq<Addr>, a: Addr)
    requires Chain(h, p, ns) && |ns| > 0
    requires forall i :: 0 <= i < |ns| - 1 ==> ns[i] in h && ns[i] in h' && h'[ns[i]].next == h[ns[i]].next
    requires ns[|ns| - 1] in h' && h'[ns[|ns| - 1]].next == Ref(a)
    requires a in h' && h'[a].next == Null
    ensures Chain(h', p, ns + [a])
    decreases |ns|
  {
    assert (ns + [a])[1..] == ns[1..] + [a];
    if |ns| == 1 {
      assert Chain(h', h'[a].next, []);
      assert Chain(h', Ref(a), [a]);
    } else {
      ChainSnoc(h, h', h[ns[0]].next, ns[1..], a);
    }
  }

  /** The list a queue represents is determined by the queue. */
  lemma {:induction false} ChainUnique(h: map<Addr, Node>, p: Ptr, ns: seq<Addr>, ms: seq<Addr>)
    requires Chain(h, p, ns) && Chain(h, p, ms)
    ensures ns == ms
    decreases |ns|
  {
    if ns != [] {
      assert ms != [];
      ChainUnique(h, h[ns[0]].next, ns[1..], ms[1..]);
      assert ns == [ns[0]] + ns[1..] && ms == [ms[0]] + ms[1..];
    }
  }

  /**
    Enqueue keeps the invariant (and with it `head == NULL` iff `tail == &head`),
    appends exactly the new node to the list, and appends its payload to the
    contents.
  */
  lemma AddTaskRepr(q: Queue, ns: seq<Addr>, a: Addr, t: Task)
    requires Repr(q, ns) && a !in q.heap
    ensures TailInHeap(q)
    ensures Repr(AddTask(q, a, t), ns + [a])
    ensures Payloads(AddTask(q, a, t).heap, ns + [a]) == Payloads(q.heap, ns) + [t]
  {
    ReprHeadInHeap(q, ns);
    var r := AddTask(q, a, t);
    if ns == [] {
      assert Chain(r.heap, r.heap[a].next, []);
      assert Chain(r.heap, r.head, [a]);
    } else {
      forall i | 0 <= i < |ns| - 1
        ensures ns[i] in r.heap && r.heap[ns[i]].next == q.heap[ns[i]].next
      {
        assert ns[i] != ns[|ns| - 1];
      }
      ChainSnoc(q.heap, r.heap, q.head, ns, a);
    }
    assert LastSlot(ns + [a]) == NextSlot(a);
  }

  /**
    Pop on an empty list changes nothing and returns NULL; on a non-empty list
    it returns the first node with its payload, the rest of the list remains
    in order, and `tail` is reset to `&head` exactly when the list becomes empty.
  */
  lemma PopTaskRepr(q: Queue, ns: seq<Addr>)
    requires Repr(q, ns)
    ensures HeadInHeap(q)
    ensures ns == [] ==> PopTask(q) == PopResult(q, None)
    ensures ns != [] ==> PopTask(q).popped == Some(Popped(ns[0], q.heap[ns[0]].task))
    ensures ns != [] ==> Repr(PopTask(q).queue, ns[1..])
    ensures ns != [] ==> Payloads(PopTask(q).queue.heap, ns[1..]) == Payloads(q.heap, ns)[1..]
    ensures ns != [] ==> (PopTask(q).queue.tail == HeadSlot <==> |ns| == 1)
  {
    ReprHeadInHeap(q, ns);
    if ns != [] {
      var r := PopTask(q).queue;
      assert ns[0] !in ns[1..] by {
        forall j | 0 <= j < |ns[1..]| ensures ns[1..][j] != ns[0] {
          assert ns[1..][j] == ns[j + 1];
        }
      }
      ChainFrame(q.heap, r.heap, q.heap[ns[0]].next, ns[1..]);
      if |ns| > 1 {
        assert ns[1..][|ns[1..]| - 1] == ns[|ns| - 1];
      }
    }
  }

  /**
    A task enqueued after `__nonblock` is still delivered: the next fetch
    returns the oldest pending node, which is the new one when the list was empty.
  */
  lemma DeliveredAfterNonblock(q: Queue, ns: seq<Addr>, a: Addr, t: Task)
    requires Repr(q, ns) && a !in q.heap
    ensures TailInHeap(Nonblock(q))
    ensures var q' := AddTask(Nonblock(q), a, t);
      HeadInHeap(q') &&
      GetTask(q').outcome == Got(if ns == [] then Popped(a, t) else Popped(ns[0], q.heap[ns[0]].task))
  {
  }
}

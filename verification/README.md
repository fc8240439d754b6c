# Thread pool task queue — a Dafny model

This project models the core of a small C worker-thread pool (`src/thread_pool.c`):

- the intrusive, singly linked FIFO task queue;
- the `block` flag that decides whether an idle worker waits or gives up;
- the pool's `quit` flag, task submission and termination;
- the worker loop;
- thread creation, including the rollback after a partial spawn failure.

Two modules carry the model:

- `TaskQueue` (`task_queue.dfy`) models `task_queue_t` over an explicit heap. The heap is a map from node addresses to `task_t` nodes. `tail` is a `Slot`: either the queue's own `head` field (`HeadSlot`) or the `next` field of a node (`NextSlot(a)`). This is the C pointer-to-pointer, written out.
  - The ghost predicate `Repr(q, ns)` ties a queue to the list of node addresses `ns` it represents.
  - `Payloads(heap, ns)` gives the abstract FIFO contents.
  - The map holds exactly the nodes the queue owns. `AddTask` takes in a freshly allocated node. `PopTask` hands the first node back to its caller, who frees it.
- `ThreadPool` (`thread_pool.dfy`) turns the pool into a sequential state machine. Each call is one atomic transition of a `Pool` value: a post, a terminate, or one step of one worker.
  - Workers are `AtLoopHead`, `Parked` (waiting on the condition variable inside `__get_task`) or `Exited`.
  - Three traces exist only for the proofs: `posted` (accepted tasks), `taken` (tasks dequeued by workers) and `calls` (handler invocations).
  - The invariant `Inv` states FIFO delivery: `posted == taken + pending`.

Inputs the C code gets from the system are parameters of the model:

- the outcomes of `malloc`, `pthread_mutex_init`, `pthread_cond_init`, `pthread_attr_init` and each `pthread_create`;
- the address `malloc` returns for a task;
- the order in which threads take steps.

Behaviours of the code worth knowing:

- `thread_pool_post` returns -1 both when shutting down and when allocation fails. There are no distinct error kinds.
- A worker frees the node *before* calling the handler, and it skips a NULL handler.
- A worker tests `quit` at the top of every loop iteration. After terminate, workers at the loop head exit without taking pending tasks. A worker already inside `__get_task` takes at most one more. `Waitdone` discards the rest.
- Creation failures of every kind, including a failed `pthread_attr_init`, surface only as a NULL pool.

## Model

| member | source | states |
|---|---|---|
| TaskQueue.QueueCreate | src/thread_pool.c:58-85 | The queue exists iff allocation, mutex init and condition init all succeed. A new queue is empty, its `tail` is its own `head` slot, and `block` is set. |
| TaskQueue.AddTask | src/thread_pool.c:96-109 | The new node's `next` is NULL and it becomes the `tail` owner. It is linked from `head` when the list was empty, and from the old last node's `next` otherwise. No other node changes, and no payload changes. `head == NULL` iff `tail == &head` is preserved. |
| TaskQueue.AddTaskRepr | src/thread_pool.c:96-109 | Enqueue keeps the representation invariant. It turns the list `ns` into `ns + [a]` and the contents `s` into `s + [t]`. |
| TaskQueue.PopTask | src/thread_pool.c:111-134 | On an empty list: NULL, and nothing changes. Otherwise: the head node and its payload are returned, `head` moves to its successor, and the node leaves the queue. `block` is unchanged and the empty-list invariant is preserved. |
| TaskQueue.PopTaskRepr | src/thread_pool.c:111-134 | Pop on list `ns` returns `ns[0]` and leaves `ns[1..]` in order, with contents `s[1..]`. `tail` is reset to `&head` exactly when the list becomes empty. An empty queue is returned unchanged. |
| TaskQueue.GetTask | src/thread_pool.c:136-154 | One pass of the fetch loop. It returns a task iff the list is non-empty, whatever `block` says. It returns NULL iff the list is empty and `block == 0`. It waits iff the list is empty and `block == 1`. |
| TaskQueue.Nonblock | src/thread_pool.c:87-94 | Clears `block` and leaves the list untouched. |
| TaskQueue.DeliveredAfterNonblock | src/thread_pool.c:141-153 | A task enqueued after `__nonblock` is still delivered in FIFO order. The next fetch returns the oldest pending node, which is the new one if the list was empty. |
| TaskQueue.Destroy | src/thread_pool.c:156-168 | Draining returns every pending node with its payload, in list order, and runs no handler. Afterwards the queue owns no node. |
| TaskQueue.ChainUnique | src/thread_pool.c:39-47 | The pending list is determined by the `head` link and the heap, so the abstraction is well defined. |
| TaskQueue.ReprHeadInHeap | src/thread_pool.c:74-75 | A represented queue satisfies `head == NULL` iff `tail == &head`, and it is empty iff `head == NULL`. |
| ThreadPool.Post | src/thread_pool.c:265-275 | Returns 0 iff `quit` is clear and allocation succeeds. On 0, one task with the given `func` and `arg` is appended and recorded as accepted. On -1 nothing changes. |
| ThreadPool.PostInv | src/thread_pool.c:265-275 | Post preserves the pool invariant. An accepted task becomes the last pending node. |
| ThreadPool.Terminate | src/thread_pool.c:239-244 | Sets `quit` and clears `block`. Pending tasks, workers and traces are unchanged. |
| ThreadPool.WorkerStep | src/thread_pool.c:170-192 | A worker exits iff it has already exited, or it is at the loop head with `quit` set, or it finds the list empty with `block == 0`. A parked worker, or one at the loop head with `quit` clear, takes the head task whenever the list is non-empty. It parks exactly when it finds the list empty with `block == 1`. It dequeues at most the head task, and it calls the handler iff the handler is not NULL. Exited workers stay exited. |
| ThreadPool.WorkerStepInv | src/thread_pool.c:170-192 | A worker step preserves the pool invariant and consumes at most the oldest pending task. |
| ThreadPool.JoinAll | src/thread_pool.c:194-202 | Once `quit` is set, joining each worker in turn terminates. Afterwards every worker has exited, and the invariant and accepted tasks are preserved. |
| ThreadPool.ThreadsCreate | src/thread_pool.c:204-237 | `thread_count` is the number of leading successful spawns, and the result is 0 iff that equals the requested count. On partial failure `quit` is set, `block` cleared, and every started worker joined. |
| ThreadPool.Create | src/thread_pool.c:246-263 | A pool is returned iff every allocation, init and spawn succeeds. It is empty, not shutting down, and has the requested number of fresh workers. |
| ThreadPool.Waitdone | src/thread_pool.c:277-286 | After terminate, every worker has exited. Every accepted task was either dequeued by a worker or discarded by the destroy, once each and in order. Handler calls are exactly those of the dequeued tasks. |
| ThreadPool.ApplyInv | src/thread_pool.c:170-275 | Each legal move preserves the invariant. `quit` and a cleared `block` are never undone, no task is accepted after `quit`, and exited workers stay exited. |
| ThreadPool.RunInv | src/thread_pool.c:170-275 | Over any legal run, dequeued tasks are a prefix of accepted tasks (FIFO, each at most once). Handlers run exactly for dequeued tasks with a handler, and shutdown is irreversible. |
| ThreadPool.AfterTerminate | src/thread_pool.c:239-275 | After terminate, every post returns -1 without change. A worker at its loop head exits on its next step without taking a pending task. |

## Left out

- Spinlock, atomics, mutex and condition variable (`include/spinlock.h`, `include/atomic.h`, the `pthread_mutex_*` / `pthread_cond_*` calls): each queue and pool operation is one atomic step.
- Lost wakeups. `__add_task` signals the condition variable without holding its mutex. A post that lands between a worker's empty pop and its `pthread_cond_wait` can go unnoticed. The model makes the empty pop and the decision to park one step, and lets a parked worker retry at any later step, so it cannot show this. Liveness is not modelled at all.
- The race between `thread_pool_post` and `thread_pool_terminate`: each is atomic here.
- Calling the handler: a handler call is an entry in the `calls` trace. What the handler does, including faults or re-entrant calls to terminate, is not modelled.
- `free` is ownership transfer: a popped node leaves the queue's map.
- ThreadPool.Waitdone: requires that terminate has already happened (`quit` set). Until then the join waits for a terminate issued elsewhere, for example by a handler. `Waitdone` is modelled from that point, and the events before it are covered by `RunInv`.
- ThreadPool.ThreadsCreate: requires a freshly built pool with an empty queue and no workers, as its only caller provides. Spawned workers start at the loop head and step only after creation. The rollback's join handles any worker state.
- ThreadPool.ThreadsCreate: the threads array freed on rollback is not modelled. `workers` keeps one `Exited` entry per started thread, matching `thread_count`. The `pthread_attr_t` left undestroyed when the threads array cannot be allocated is not modelled either.
- ThreadPool.Create: `thread_count` is a natural number. The conversion of a negative `int` argument to `size_t` is not modelled.
- `test/main.c` (a demonstration driver) and `include/thread_pool.h` (declarations only).

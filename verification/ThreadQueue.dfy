/**
 The queue that hands tasks from any thread to one event loop, woken through an eventfd
 counter, and the pool that owns one such queue per thread.
 */
module ThreadQueues {
  import opened Seqs

  class ThreadQueue<T> {
    var queue: seq<T>
    /** The value of the eventfd counter, which is readable when it is not zero. */
    var evfd: nat

    /** Everything sent, in the order of the lock, and everything received. */
    ghost var sent: seq<T>
    ghost var received: seq<T>

    /** Kept by every critical section, so by every interleaving of senders and the receiver:
        nothing is lost, repeated or reordered, and the counter is the number of tasks waiting. */
    ghost predicate Valid()
      reads this
    {
      received + queue == sent && evfd == |queue|
    }

    constructor ()
      ensures Valid() && queue == [] && sent == [] && received == []
    {
      queue, evfd := [], 0;
      sent, received := [], [];
    }

    method Send(task: T)
      requires Valid()
      modifies this
      ensures Valid() && sent == old(sent) + [task] && received == old(received)
      ensures queue == old(queue) + [task] && evfd > 0
    {
      assert received + (queue + [task]) == (received + queue) + [task];
      queue := queue + [task];
      evfd := evfd + 1;
      sent := sent + [task];
    }

    /** Swaps the tasks with an empty queue and clears the counter. */
    method Recv() returns (tasks: seq<T>)
      requires Valid()
      modifies this
      ensures Valid() && sent == old(sent) && received == old(received) + tasks
      ensures tasks == old(queue) && queue == [] && evfd == 0
    {
      evfd := 0;
      tasks := queue;
      queue := [];
      received := received + tasks;
    }
  }

  datatype TaskMsg = NewConn(fd: nat) | NewTask(task: nat)

  function ConnsIn(ms: seq<TaskMsg>): seq<nat> {
    if ms == [] then []
    else ConnsIn(ms[..|ms| - 1]) + if ms[|ms| - 1].NewConn? then [ms[|ms| - 1].fd] else []
  }

  function TasksIn(ms: seq<TaskMsg>): seq<nat> {
    if ms == [] then []
    else TasksIn(ms[..|ms| - 1]) + if ms[|ms| - 1].NewTask? then [ms[|ms| - 1].task] else []
  }

  /** The number of messages before place `i` that are tasks, or that are not. */
  function Earlier(ms: seq<TaskMsg>, i: nat, tasks: bool): nat
    requires i <= |ms|
  {
    if i == 0 then 0 else Earlier(ms, i - 1, tasks) + if ms[i - 1].NewTask? == tasks then 1 else 0
  }

  lemma {:induction false} EarlierTotal(ms: seq<TaskMsg>, i: nat)
    requires i <= |ms|
    ensures Earlier(ms, i, true) + Earlier(ms, i, false) == i
    ensures |TasksIn(ms[..i])| == Earlier(ms, i, true) && |ConnsIn(ms[..i])| == Earlier(ms, i, false)
  {
    if i > 0 {
      EarlierTotal(ms, i - 1);
      assert ms[..i][..i - 1] == ms[..i - 1];
    }
  }

  lemma {:induction false} SortedPrefix(ms: seq<TaskMsg>, i: nat)
    requires i <= |ms|
    ensures TasksIn(ms[..i]) <= TasksIn(ms) && ConnsIn(ms[..i]) <= ConnsIn(ms)
    decreases |ms|
  {
    if i == |ms| {
      assert ms[..i] == ms;
    } else {
      var init := ms[..|ms| - 1];
      assert init[..i] == ms[..i];
      SortedPrefix(init, i);
      assert TasksIn(ms[..i]) <= TasksIn(init) <= TasksIn(ms) && ConnsIn(ms[..i]) <= ConnsIn(init) <= ConnsIn(ms);
    }
  }

  /** The message at place `i` goes where its kind goes, behind the earlier ones of its kind. */
  ghost predicate DealtAt(ms: seq<TaskMsg>, i: nat)
    requires i < |ms|
  {
    match ms[i]
    case NewTask(task) => Earlier(ms, i, true) < |TasksIn(ms)| && TasksIn(ms)[Earlier(ms, i, true)] == task
    case NewConn(fd) => Earlier(ms, i, false) < |ConnsIn(ms)| && ConnsIn(ms)[Earlier(ms, i, false)] == fd
  }

  lemma MessageDealt(ms: seq<TaskMsg>, i: nat)
    requires i < |ms|
    ensures DealtAt(ms, i)
  {
    var front := ms[..i + 1];
    assert front[..i] == ms[..i];
    EarlierTotal(ms, i);
    SortedPrefix(ms, i + 1);
    assert TasksIn(front) <= TasksIn(ms) && ConnsIn(front) <= ConnsIn(ms);
  }

  /** Every message goes one way: nothing is dropped or made up, and among its kind each keeps its
      place. */
  lemma EveryMessageDealt(ms: seq<TaskMsg>)
    ensures |ConnsIn(ms)| + |TasksIn(ms)| == |ms|
    ensures forall i | 0 <= i < |ms| :: DealtAt(ms, i)
  {
    EarlierTotal(ms, |ms|);
    assert ms[..|ms|] == ms;
    forall i | 0 <= i < |ms| ensures DealtAt(ms, i) {
      MessageDealt(ms, i);
    }
  }

  /** The part of an event loop that `deal_task_message` and the task list touch. */
  class TaskLoop {
    var conns: seq<nat>
    var readyTasks: seq<nat>

    constructor ()
      ensures conns == [] && readyTasks == []
    {
      conns, readyTasks := [], [];
    }

    method AddTask(task: nat)
      modifies this`readyTasks
      ensures readyTasks == old(readyTasks) + [task]
    {
      readyTasks := readyTasks + [task];
    }

    /** Runs the ready tasks in order, once each, and clears the list. */
    method ExecuteReadyTasks() returns (run: seq<nat>)
      modifies this`readyTasks
      ensures run == old(readyTasks) && readyTasks == []
    {
      run := [];
      for i := 0 to |readyTasks|
        invariant run == readyTasks[..i]
      {
        run := run + [readyTasks[i]];
      }
      readyTasks := [];
    }
  }

  /** `deal_task_message`: connections are opened and tasks become ready, in queue order. */
  method DealTaskMessage(queue: ThreadQueue<TaskMsg>, loop: TaskLoop)
    requires queue.Valid()
    modifies queue, loop
    ensures queue.Valid() && queue.queue == [] && queue.sent == old(queue.sent)
    ensures loop.conns == old(loop.conns) + ConnsIn(old(queue.queue))
    ensures loop.readyTasks == old(loop.readyTasks) + TasksIn(old(queue.queue))
  {
    var tasks := queue.Recv();
    for i := 0 to |tasks|
      invariant queue.Valid() && queue.queue == [] && queue.sent == old(queue.sent)
      invariant loop.conns == old(loop.conns) + ConnsIn(tasks[..i])
      invariant loop.readyTasks == old(loop.readyTasks) + TasksIn(tasks[..i])
    {
      assert tasks[..i + 1][..i] == tasks[..i];
      match tasks[i] {
        case NewConn(fd) => loop.conns := loop.conns + [fd];
        case NewTask(task) => loop.AddTask(task);
      }
    }
    assert tasks[..|tasks|] == tasks;
  }

  class ThreadPool {
    const queues: seq<ThreadQueue<TaskMsg>>
    var index: nat

    ghost predicate Valid()
      reads this, queues
    {
      && queues != [] && index <= |queues| && NoDup(queues)
      && forall q <- queues :: q.Valid()
    }

    constructor (queues: seq<ThreadQueue<TaskMsg>>)
      requires queues != [] && NoDup(queues) && forall q <- queues :: q.Valid()
      ensures Valid() && this.queues == queues && index == 0
    {
      this.queues, index := queues, 0;
    }

    method GetThread() returns (q: ThreadQueue<TaskMsg>)
      requires Valid()
      modifies this`index
      ensures Valid() && q == queues[Served(old(index), |queues|, 0)] && index == NextIndex(old(index), |queues|)
    {
      if index == |queues| {
        index := 0;
      }
      q := queues[index];
      index := index + 1;
    }

    /** `send_task`: every thread's queue gets the task, behind what it holds. */
    method SendTask(task: nat)
      requires Valid()
      modifies queues
      ensures Valid()
      ensures forall q <- queues :: q.queue == old(q.queue) + [NewTask(task)] && q.evfd > 0
    {
      for i := 0 to |queues|
        invariant forall q <- queues :: q.Valid()
        invariant forall j | 0 <= j < |queues| ::
          queues[j].queue == if j < i then old(queues[j].queue) + [NewTask(task)] else old(queues[j].queue)
        invariant forall j | 0 <= j < i :: queues[j].evfd > 0
      {
        queues[i].Send(NewTask(task));
      }
    }
  }

  function NextIndex(index: nat, n: nat): nat
    requires 0 < n && index <= n
  {
    if index == n then 1 else index + 1
  }

  /** The queue returned by call number `k`, counted from a pool whose index is `index`. */
  function Served(index: nat, n: nat, k: nat): (q: nat)
    requires 0 < n && index <= n
    ensures q < n
    decreases k
  {
    if k > 0 then Served(NextIndex(index, n), n, k - 1)
    else if index == n then 0 else index
  }

  lemma {:induction false} ServedInTurn(index: nat, n: nat, k: nat)
    requires 0 < n && index <= n && k < n
    ensures var first := if index == n then 0 else index;
      Served(index, n, k) == if first + k < n then first + k else first + k - n
    decreases k
  {
    if k > 0 {
      ServedInTurn(NextIndex(index, n), n, k - 1);
    }
  }

  /** Any `n` calls in a row return each of the `n` queues exactly once. */
  lemma EachQueueOnce(index: nat, n: nat, q: nat) returns (at: nat)
    requires index <= n && q < n
    ensures at < n && forall k | 0 <= k < n :: Served(index, n, k) == q <==> k == at
  {
    var first := if index == n then 0 else index;
    at := if first <= q then q - first else q + n - first;
    forall k | 0 <= k < n ensures Served(index, n, k) == q <==> k == at {
      ServedInTurn(index, n, k);
    }
  }
}

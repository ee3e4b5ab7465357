/** The bundling server (src/dev_bundler.erl): a queue, a worker pool and live bundles. */
module Bundler {
  import opened Options
  import Ledger

  type ItemId = string
  type Tx = string

  /** The receipt of a reservation, or nothing for unpaid items. */
  datatype Escrow = NoEscrow | Paid(id: Ledger.ReservationId, recipient: Ledger.Account)

  datatype Entry = Entry(item: ItemId, size: nat, escrow: Escrow)

  datatype Phase = Initializing | TxPosted | ProofsBuilt

  datatype ProofStatus = Pending | Seeded

  datatype Bundle = Bundle(id: nat, entries: seq<Entry>, phase: Phase, tx: Option<Tx>, proofs: map<nat, ProofStatus>)

  datatype Work = PostTx(entries: seq<Entry>) | BuildProofs(tx: Tx) | PostProof(offset: nat)

  datatype Task = Task(bundle: nat, work: Work, retries: nat)

  /** What a worker reports for each kind of work; proofs are known by their offsets. */
  datatype Result = Posted(tx: Tx) | Built(offsets: seq<nat>) | ProofPosted

  datatype WorkerStatus = Idle | Busy(task: Task)

  /** What the server does to the outside: workers, timers, ledger. */
  datatype Effect =
    | Execute(worker: nat, task: Task)
    | ArmDispatch(timer: nat)
    | CancelDispatch(timer: nat)
    | RetryLater(task: Task)
    | ReleaseEscrow(escrow: Escrow)

  /** `nextRef` is the supply of unique references; `out` collects the effects of a turn. Workers
      are numbered. */
  datatype State = State(
    maxSize: nat,
    maxItems: nat,
    queue: seq<Entry>,
    bytes: int,
    workers: seq<WorkerStatus>,
    taskQueue: seq<Task>,
    bundles: map<nat, Bundle>,
    dispatchRef: Option<nat>,
    nextRef: nat,
    out: seq<Effect>
  )

  datatype Message =
    | EnqueueItem(entry: Entry)
    | DispatchNow(timer: nat)
    | TaskComplete(worker: nat, task: Task, result: Result)
    | TaskFailed(failedWorker: nat, failedTask: Task)
    | RetryTask(retry: Task)
    | IdleTimeout

  //////////////////////////////////////////////////////////////////////////////
  // Specification functions
  //////////////////////////////////////////////////////////////////////////////

  function QueueBytes(entries: seq<Entry>): nat {
    if entries == [] then 0 else entries[0].size + QueueBytes(entries[1..])
  }

  predicate Dispatchable(s: State) {
    |s.queue| >= s.maxItems || s.bytes >= s.maxSize
  }

  /** With limits of zero the server would dispatch empty queues forever. */
  predicate Sound(s: State) {
    s.maxItems > 0 && s.maxSize > 0 && s.bytes == QueueBytes(s.queue)
  }

  function Emit(s: State, e: Effect): State { s.(out := s.out + [e]) }

  function AddEntry(s: State, entry: Entry): State {
    var s' := s.(queue := [entry] + s.queue, bytes := s.bytes + entry.size);
    if s.queue == [] then Emit(s'.(dispatchRef := Some(s.nextRef), nextRef := s.nextRef + 1), ArmDispatch(s.nextRef)) else s'
  }

  function WithTask(s: State, task: Task): State { s.(taskQueue := s.taskQueue + [task]) }

  function WithBundle(s: State, entries: seq<Entry>): State {
    if entries == [] then s
    else
      var b := Bundle(s.nextRef, entries, Initializing, None, map[]);
      WithTask(s.(bundles := s.bundles[s.nextRef := b], nextRef := s.nextRef + 1), Task(s.nextRef, PostTx(entries), 0))
  }

  function Taken(s: State): nat {
    if |s.queue| <= s.maxItems then |s.queue| else s.maxItems
  }

  function DispatchOne(s: State): State {
    var rest := s.queue[Taken(s)..];
    WithBundle(s, s.queue[..Taken(s)]).(queue := rest, bytes := QueueBytes(rest))
  }

  function DispatchWhileFull(s: State): State
    requires Sound(s)
    decreases |s.queue|
  {
    if Dispatchable(s) then
      assert s.queue != [];
      DispatchWhileFull(DispatchOne(s))
    else s
  }

  function DispatchAll(s: State): State {
    if s.queue == [] then s
    else
      var s' := if s.dispatchRef.Some? then Emit(s, CancelDispatch(s.dispatchRef.value)) else s;
      WithBundle(s'.(queue := [], bytes := 0, dispatchRef := None), s.queue)
  }

  /** Idle workers from number `w` on take the oldest tasks. */
  function AssignFrom(s: State, w: nat): State
    requires w <= |s.workers|
    decreases |s.workers| - w
  {
    if w == |s.workers| || s.taskQueue == [] then s
    else if s.workers[w].Idle? then
      var task := s.taskQueue[0];
      AssignFrom(Emit(s.(taskQueue := s.taskQueue[1..], workers := s.workers[w := Busy(task)]), Execute(w, task)), w + 1)
    else AssignFrom(s, w + 1)
  }

  function Freed(s: State, w: nat): State
    requires w < |s.workers|
  {
    s.(workers := s.workers[w := Idle])
  }

  function ProofTasks(id: nat, offsets: seq<nat>): (tasks: seq<Task>)
    ensures |tasks| == |offsets|
  {
    seq(|offsets|, i requires 0 <= i < |offsets| => Task(id, PostProof(offsets[i]), 0))
  }

  function ReleaseAll(entries: seq<Entry>): (effects: seq<Effect>)
    ensures |effects| == |entries|
  {
    seq(|entries|, i requires 0 <= i < |entries| => ReleaseEscrow(entries[i].escrow))
  }

  function WithoutBundle(s: State, b: Bundle): State {
    s.(bundles := s.bundles - {b.id}, out := s.out + ReleaseAll(b.entries))
  }

  predicate AllSeeded(proofs: map<nat, ProofStatus>) {
    forall o | o in proofs :: proofs[o].Seeded?
  }

  predicate Fits(work: Work, result: Result) {
    match work
    case PostTx(_) => result.Posted?
    case BuildProofs(_) => result.Built?
    case PostProof(_) => result.ProofPosted?
  }

  /** A report the server can process: it is of the right kind and names a known proof. */
  predicate Processable(s: State, task: Task, result: Result) {
    && Fits(task.work, result)
    && (task.bundle in s.bundles && task.work.PostProof? ==> task.work.offset in s.bundles[task.bundle].proofs)
  }

  function Completed(s: State, b: Bundle, task: Task, result: Result): State
    requires Fits(task.work, result)
    requires task.work.PostProof? ==> task.work.offset in b.proofs
  {
    match task.work
    case PostTx(_) =>
      var b' := b.(phase := TxPosted, tx := Some(result.tx));
      WithTask(s.(bundles := s.bundles[task.bundle := b']), Task(task.bundle, BuildProofs(result.tx), 0))
    case BuildProofs(_) =>
      if result.offsets == [] then WithoutBundle(s, b)
      else
        var b' := b.(phase := ProofsBuilt, proofs := map o | o in result.offsets :: Pending);
        s.(bundles := s.bundles[task.bundle := b'], taskQueue := s.taskQueue + ProofTasks(task.bundle, result.offsets))
    case PostProof(offset) =>
      var b' := b.(proofs := b.proofs[offset := Seeded]);
      var s' := s.(bundles := s.bundles[task.bundle := b']);
      if AllSeeded(b'.proofs) then WithoutBundle(s', b') else s'
  }

  function AfterComplete(s: State, w: nat, task: Task, result: Result): State
    requires w < |s.workers| && Processable(s, task, result)
  {
    if task.bundle in s.bundles then Completed(Freed(s, w), s.bundles[task.bundle], task, result) else Freed(s, w)
  }

  function AfterFailure(s: State, w: nat, task: Task): State
    requires w < |s.workers|
  {
    Emit(Freed(s, w), RetryLater(task.(retries := task.retries + 1)))
  }

  predicate Receivable(s: State, m: Message) {
    match m
    case TaskComplete(w, task, result) => w < |s.workers| && Processable(s, task, result)
    case TaskFailed(w, _) => w < |s.workers|
    case _ => true
  }

  /** What a message does before tasks are assigned. */
  function React(s: State, m: Message): State
    requires Sound(s) && Receivable(s, m)
  {
    match m
    case EnqueueItem(entry) => DispatchWhileFull(AddEntry(s, entry))
    case DispatchNow(_) => DispatchAll(s)
    case TaskComplete(w, task, result) => AfterComplete(s, w, task, result)
    case TaskFailed(w, task) => AfterFailure(s, w, task)
    case RetryTask(task) => WithTask(s, task)
    case IdleTimeout => DispatchAll(s)
  }

  /** One turn of the server loop. */
  function Receive(s: State, m: Message): State
    requires Sound(s) && Receivable(s, m)
  {
    AssignFrom(React(s, m), 0)
  }

  //////////////////////////////////////////////////////////////////////////////
  // The server process
  //////////////////////////////////////////////////////////////////////////////

  class Server {
    const maxSize: nat
    const maxItems: nat
    var queue: seq<Entry>
    var bytes: int
    var workers: seq<WorkerStatus>
    var taskQueue: seq<Task>
    var bundles: map<nat, Bundle>
    var dispatchRef: Option<nat>
    var nextRef: nat
    var out: seq<Effect>

    ghost function View(): State
      reads this
    {
      State(maxSize, maxItems, queue, bytes, workers, taskQueue, bundles, dispatchRef, nextRef, out)
    }

    constructor (maxSize: nat, maxItems: nat, numWorkers: nat)
      ensures View() == State(maxSize, maxItems, [], 0, seq(numWorkers, _ => Idle), [], map[], None, 0, [])
    {
      this.maxSize, this.maxItems := maxSize, maxItems;
      queue, bytes, taskQueue, bundles, dispatchRef, nextRef, out := [], 0, [], map[], None, 0, [];
      workers := seq(numWorkers, _ => Idle);
    }

    method AddToQueue(entry: Entry)
      modifies this
      ensures View() == AddEntry(old(View()), entry)
    {
      var wasEmpty := queue == [];
      queue := [entry] + queue;
      bytes := bytes + entry.size;
      if wasEmpty {
        out := out + [ArmDispatch(nextRef)];
        dispatchRef, nextRef := Some(nextRef), nextRef + 1;
      }
    }

    method EnqueueTask(task: Task)
      modifies this
      ensures View() == WithTask(old(View()), task)
    {
      taskQueue := taskQueue + [task];
    }

    method CreateBundle(entries: seq<Entry>)
      modifies this
      ensures View() == WithBundle(old(View()), entries)
    {
      if entries != [] {
        var id := nextRef;
        nextRef := nextRef + 1;
        bundles := bundles[id := Bundle(id, entries, Initializing, None, map[])];
        EnqueueTask(Task(id, PostTx(entries), 0));
      }
    }

    method ComputeQueueBytes(entries: seq<Entry>) returns (total: nat)
      ensures total == QueueBytes(entries)
    {
      total := 0;
      var i := |entries|;
      while i > 0
        invariant 0 <= i <= |entries|
        invariant total == QueueBytes(entries[i..])
      {
        i := i - 1;
        assert entries[i..][1..] == entries[i + 1..];
        total := total + entries[i].size;
      }
      assert entries[0..] == entries;
    }

    method MaybeDispatch()
      requires Sound(View())
      modifies this
      ensures View() == DispatchWhileFull(old(View()))
    {
      while |queue| >= maxItems || bytes >= maxSize
        invariant Sound(View())
        invariant DispatchWhileFull(View()) == DispatchWhileFull(old(View()))
        decreases |queue|
      {
        ghost var before := View();
        var n := if |queue| <= maxItems then |queue| else maxItems;
        var (toDispatch, remaining) := (queue[..n], queue[n..]);
        CreateBundle(toDispatch);
        queue := remaining;
        bytes := ComputeQueueBytes(remaining);
        assert View() == DispatchOne(before);
      }
    }

    method DispatchQueue()
      modifies this
      ensures View() == DispatchAll(old(View()))
    {
      if queue != [] {
        if dispatchRef.Some? {
          out := out + [CancelDispatch(dispatchRef.value)];
        }
        var entries := queue;
        queue, bytes, dispatchRef := [], 0, None;
        CreateBundle(entries);
      }
    }

    method AssignTasks()
      modifies this
      ensures View() == AssignFrom(old(View()), 0)
    {
      var w := 0;
      while w < |workers| && taskQueue != []
        invariant w <= |workers|
        invariant AssignFrom(View(), w) == AssignFrom(old(View()), 0)
        decreases |workers| - w
      {
        if workers[w].Idle? {
          var task := taskQueue[0];
          out := out + [Execute(w, task)];
          taskQueue := taskQueue[1..];
          workers := workers[w := Busy(task)];
        }
        w := w + 1;
      }
    }

    method BundleComplete(b: Bundle)
      modifies this
      ensures View() == WithoutBundle(old(View()), b)
    {
      out := out + ReleaseAll(b.entries);
      bundles := bundles - {b.id};
    }

    method TaskCompleted(b: Bundle, task: Task, result: Result)
      requires Fits(task.work, result)
      requires task.work.PostProof? ==> task.work.offset in b.proofs
      modifies this
      ensures View() == Completed(old(View()), b, task, result)
    {
      match task.work
      case PostTx(_) =>
        bundles := bundles[task.bundle := b.(phase := TxPosted, tx := Some(result.tx))];
        EnqueueTask(Task(task.bundle, BuildProofs(result.tx), 0));
      case BuildProofs(_) =>
        if result.offsets == [] {
          BundleComplete(b);
        } else {
          bundles := bundles[task.bundle := b.(phase := ProofsBuilt, proofs := map o | o in result.offsets :: Pending)];
          EnqueueProofTasks(task.bundle, result.offsets);
        }
      case PostProof(offset) =>
        var b' := b.(proofs := b.proofs[offset := Seeded]);
        bundles := bundles[task.bundle := b'];
        if AllSeeded(b'.proofs) {
          BundleComplete(b');
        }
    }

    method EnqueueProofTasks(id: nat, offsets: seq<nat>)
      modifies this
      ensures View() == old(View()).(taskQueue := old(taskQueue) + ProofTasks(id, offsets))
    {
      var i := 0;
      while i < |offsets|
        invariant i <= |offsets|
        invariant View() == old(View()).(taskQueue := old(taskQueue) + ProofTasks(id, offsets)[..i])
      {
        EnqueueTask(Task(id, PostProof(offsets[i]), 0));
        assert ProofTasks(id, offsets)[..i] + [ProofTasks(id, offsets)[i]] == ProofTasks(id, offsets)[..i + 1];
        i := i + 1;
      }
    }

    method HandleTaskComplete(w: nat, task: Task, result: Result)
      requires w < |workers| && Processable(View(), task, result)
      modifies this
      ensures View() == AfterComplete(old(View()), w, task, result)
    {
      workers := workers[w := Idle];
      if task.bundle in bundles {
        TaskCompleted(bundles[task.bundle], task, result);
      }
    }

    method HandleTaskFailed(w: nat, task: Task)
      requires w < |workers|
      modifies this
      ensures View() == AfterFailure(old(View()), w, task)
    {
      out := out + [RetryLater(task.(retries := task.retries + 1))];
      workers := workers[w := Idle];
    }

    method Serve(m: Message)
      requires Sound(View()) && Receivable(View(), m)
      modifies this
      ensures View() == Receive(old(View()), m)
    {
      match m {
        case EnqueueItem(entry) =>
          AddToQueue(entry);
          MaybeDispatch();
        case DispatchNow(_) => DispatchQueue();
        case TaskComplete(w, task, result) => HandleTaskComplete(w, task, result);
        case TaskFailed(w, task) => HandleTaskFailed(w, task);
        case RetryTask(task) => EnqueueTask(task);
        case IdleTimeout => DispatchQueue();
      }
      AssignTasks();
    }
  }
}

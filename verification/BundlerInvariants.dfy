/** What every turn of the bundling server keeps. */
module BundlerInvariants {
  import opened Options
  import opened MapSum
  import opened Counting
  import opened Bundler

  //////////////////////////////////////////////////////////////////////////////
  // Outstanding work
  //////////////////////////////////////////////////////////////////////////////

  datatype Part = PostPart | BuildPart | ProofPart(offset: nat)

  /** A piece of work, however often it was retried. */
  datatype Key = Key(bundle: nat, part: Part)

  function KeyOf(task: Task): Key {
    Key(task.bundle,
        match task.work
        case PostTx(_) => PostPart
        case BuildProofs(_) => BuildPart
        case PostProof(o) => ProofPart(o))
  }

  function IsKey(k: Key): Task -> bool { (t: Task) => KeyOf(t) == k }

  function Runs(k: Key): WorkerStatus -> bool { (w: WorkerStatus) => w.Busy? && KeyOf(w.task) == k }

  /** How often `k` is among the tasks. */
  function KeyCount(tasks: seq<Task>, k: Key): nat { Count(tasks, IsKey(k)) }

  /** How often the server has `k` queued or running. */
  function WorkCount(s: State, k: Key): nat { KeyCount(s.taskQueue, k) + Count(s.workers, Runs(k)) }

  /** Whether a live bundle waits for `k` in its phase. */
  predicate Needs(b: Bundle, part: Part) {
    match b.phase
    case Initializing => part.PostPart?
    case TxPosted => part.BuildPart?
    case ProofsBuilt => part.ProofPart? && part.offset in b.proofs && b.proofs[part.offset].Pending?
  }

  predicate Required(s: State, k: Key) {
    k.bundle in s.bundles && Needs(s.bundles[k.bundle], k.part)
  }

  //////////////////////////////////////////////////////////////////////////////
  // Entries
  //////////////////////////////////////////////////////////////////////////////

  function BundleCounts(bundles: map<nat, Bundle>, p: Entry -> bool): map<nat, int> {
    map id | id in bundles :: Count(bundles[id].entries, p)
  }

  /** How many entries with a property the server holds: queued, or in a live bundle. */
  ghost function Owned(s: State, p: Entry -> bool): int {
    Count(s.queue, p) + Sum(BundleCounts(s.bundles, p))
  }

  lemma SetBundle(bundles: map<nat, Bundle>, id: nat, b: Bundle, p: Entry -> bool)
    ensures
      Sum(BundleCounts(bundles[id := b], p))
      == Sum(BundleCounts(bundles, p)) + Count(b.entries, p) - (if id in bundles then Count(bundles[id].entries, p) else 0)
  {
    SumUpdate(BundleCounts(bundles, p), id, Count(b.entries, p));
    assert BundleCounts(bundles[id := b], p) == BundleCounts(bundles, p)[id := Count(b.entries, p)];
  }

  lemma DropBundle(bundles: map<nat, Bundle>, id: nat, p: Entry -> bool)
    requires id in bundles
    ensures Sum(BundleCounts(bundles - {id}, p)) == Sum(BundleCounts(bundles, p)) - Count(bundles[id].entries, p)
  {
    SumRemove(BundleCounts(bundles, p), id);
    assert BundleCounts(bundles - {id}, p) == BundleCounts(bundles, p) - {id};
  }

  //////////////////////////////////////////////////////////////////////////////
  // Well-formed states
  //////////////////////////////////////////////////////////////////////////////

  /** A live bundle has items within the limit, and at least one proof still to post once its
      proofs are built. */
  predicate BundleOk(s: State, id: nat, b: Bundle) {
    && b.id == id < s.nextRef
    && 0 < |b.entries| <= s.maxItems
    && (if b.phase.ProofsBuilt? then !AllSeeded(b.proofs) else b.proofs == map[])
    && (b.phase.Initializing? <==> b.tx.None?)
  }

  predicate BundlesOk(s: State) {
    forall id | id in s.bundles :: BundleOk(s, id, s.bundles[id])
  }

  predicate NoneWaits(s: State) {
    s.taskQueue == [] || forall w | 0 <= w < |s.workers| :: s.workers[w].Busy?
  }

  /** Between turns: the byte count is right, the queue is below both limits, and no worker idles
      while a task waits. */
  predicate Settled(s: State) {
    Sound(s) && !Dispatchable(s) && BundlesOk(s) && NoneWaits(s)
  }

  /** The server takes on exactly the work its bundles came to need: seen from key `k`. */
  ghost predicate Balanced(s: State, s': State, k: Key) {
    WorkCount(s', k) - WorkCount(s, k) == One(Required(s', k)) - One(Required(s, k))
  }

  /** What dispatching may change, seen from key `k` and from the entries with property `p`. */
  ghost predicate Dispatched(s: State, s': State, k: Key, p: Entry -> bool) {
    && Sound(s') && BundlesOk(s') && Balanced(s, s', k) && Owned(s', p) == Owned(s, p)
    && s'.maxItems == s.maxItems && s'.maxSize == s.maxSize && s'.workers == s.workers && s.nextRef <= s'.nextRef
  }

  lemma AddBundleOk(s: State, entries: seq<Entry>)
    requires BundlesOk(s) && 0 < |entries| <= s.maxItems
    ensures s.nextRef !in s.bundles && BundlesOk(WithBundle(s, entries))
  {
    assert s.nextRef in s.bundles ==> BundleOk(s, s.nextRef, s.bundles[s.nextRef]);
    forall id | id in s.bundles ensures BundleOk(WithBundle(s, entries), id, s.bundles[id]) {
      assert BundleOk(s, id, s.bundles[id]);
    }
  }

  lemma AddBundle(s: State, entries: seq<Entry>, k: Key, p: Entry -> bool)
    requires BundlesOk(s) && 0 < |entries| <= s.maxItems
    ensures
      var s' := WithBundle(s, entries);
      && BundlesOk(s') && Balanced(s, s', k)
      && Owned(s', p) == Owned(s, p) + Count(entries, p)
  {
    var (id, task) := (s.nextRef, Task(s.nextRef, PostTx(entries), 0));
    AddBundleOk(s, entries);
    SetBundle(s.bundles, id, Bundle(id, entries, Initializing, None, map[]), p);
    CountSnoc(s.taskQueue, task, IsKey(k));
  }

  lemma DispatchOneKeeps(s: State, k: Key, p: Entry -> bool)
    requires Sound(s) && BundlesOk(s) && s.queue != []
    ensures Dispatched(s, DispatchOne(s), k, p)
  {
    var n := Taken(s);
    AddBundle(s, s.queue[..n], k, p);
    assert s.queue == s.queue[..n] + s.queue[n..];
    CountAppend(s.queue[..n], s.queue[n..], p);
  }

  lemma {:induction false} DispatchWhileFullKeeps(s: State, k: Key, p: Entry -> bool)
    requires Sound(s) && BundlesOk(s)
    ensures Dispatched(s, DispatchWhileFull(s), k, p) && !Dispatchable(DispatchWhileFull(s))
    ensures DispatchWhileFull(s).out == s.out && DispatchWhileFull(s).dispatchRef == s.dispatchRef
    decreases |s.queue|
  {
    if Dispatchable(s) {
      DispatchOneKeeps(s, k, p);
      DispatchWhileFullKeeps(DispatchOne(s), k, p);
    }
  }

  lemma DispatchAllKeeps(s: State, k: Key, p: Entry -> bool)
    requires Sound(s) && BundlesOk(s) && |s.queue| <= s.maxItems
    ensures Dispatched(s, DispatchAll(s), k, p) && DispatchAll(s).queue == []
  {
    if s.queue != [] {
      var s' := if s.dispatchRef.Some? then Emit(s, CancelDispatch(s.dispatchRef.value)) else s;
      AddBundle(s'.(queue := [], bytes := 0, dispatchRef := None), s.queue, k, p);
    }
  }

  //////////////////////////////////////////////////////////////////////////////
  // Workers
  //////////////////////////////////////////////////////////////////////////////

  function AssignOne(s: State, w: nat): State
    requires w < |s.workers| && s.taskQueue != []
  {
    var task := s.taskQueue[0];
    Emit(s.(taskQueue := s.taskQueue[1..], workers := s.workers[w := Busy(task)]), Execute(w, task))
  }

  /** Assigning moves tasks from the queue to idle workers and touches nothing else. */
  ghost predicate Assigned(s: State, s': State, w: nat) {
    && s' == s.(taskQueue := s'.taskQueue, workers := s'.workers, out := s'.out)
    && |s'.workers| == |s.workers|
    && (forall i | 0 <= i < |s.workers| && (i < w || s.workers[i].Busy?) :: s'.workers[i] == s.workers[i])
    && (s'.taskQueue == [] || forall i | w <= i < |s.workers| :: s'.workers[i].Busy?)
  }

  lemma {:induction false} AssignKeeps(s: State, w: nat)
    requires w <= |s.workers|
    ensures Assigned(s, AssignFrom(s, w), w)
    decreases |s.workers| - w
  {
    if w < |s.workers| && s.taskQueue != [] {
      AssignKeeps(if s.workers[w].Idle? then AssignOne(s, w) else s, w + 1);
    }
  }

  lemma {:induction false} AssignKeepsWork(s: State, w: nat, k: Key)
    requires w <= |s.workers|
    ensures WorkCount(AssignFrom(s, w), k) == WorkCount(s, k)
    decreases |s.workers| - w
  {
    if w < |s.workers| && s.taskQueue != [] {
      if s.workers[w].Idle? {
        CountUpdate(s.workers, w, Busy(s.taskQueue[0]), Runs(k));
        AssignKeepsWork(AssignOne(s, w), w + 1, k);
      } else {
        AssignKeepsWork(s, w + 1, k);
      }
    }
  }

  /** The tasks sent out by assigning are those of the workers that became busy, one each. */
  ghost predicate Sends(s: State, s': State, w: nat, sent: seq<Effect>)
    requires |s'.workers| == |s.workers|
  {
    && (forall e | e in sent :: e.Execute? && w <= e.worker < |s.workers| && s.workers[e.worker].Idle? && s'.workers[e.worker] == Busy(e.task))
    && (forall i | w <= i < |s.workers| && s.workers[i].Idle? && s'.workers[i].Busy? :: Execute(i, s'.workers[i].task) in sent)
    && (forall i, j | 0 <= i < j < |sent| :: sent[i] != sent[j])
  }

  lemma SentAfter(out: seq<Effect>, e: Effect, rest: seq<Effect>)
    ensures out + ([e] + rest) == (out + [e]) + rest
  {
  }

  lemma {:induction false} AssignSends(s: State, w: nat) returns (sent: seq<Effect>)
    requires w <= |s.workers|
    ensures |AssignFrom(s, w).workers| == |s.workers|
    ensures AssignFrom(s, w).out == s.out + sent && Sends(s, AssignFrom(s, w), w, sent)
    decreases |s.workers| - w
  {
    AssignKeeps(s, w);
    if w < |s.workers| && s.taskQueue != [] {
      if s.workers[w].Idle? {
        var s1 := AssignOne(s, w);
        AssignKeeps(s1, w + 1);
        var rest := AssignSends(s1, w + 1);
        sent := [Execute(w, s.taskQueue[0])] + rest;
        SentAfter(s.out, Execute(w, s.taskQueue[0]), rest);
      } else {
        sent := AssignSends(s, w + 1);
      }
    } else {
      sent := [];
    }
  }

  //////////////////////////////////////////////////////////////////////////////
  // Task reports
  //////////////////////////////////////////////////////////////////////////////

  /** The entries that a report completes. */
  function DoneEntries(s: State, task: Task, result: Result): seq<Entry>
    requires Processable(s, task, result)
  {
    if task.bundle !in s.bundles then []
    else
      var b := s.bundles[task.bundle];
      match task.work
      case PostTx(_) => []
      case BuildProofs(_) => if result.offsets == [] then b.entries else []
      case PostProof(o) => if AllSeeded(b.proofs[o := Seeded]) then b.entries else []
  }

  predicate Distinct(offsets: seq<nat>) {
    forall i, j | 0 <= i < j < |offsets| :: offsets[i] != offsets[j]
  }

  lemma {:induction false} ProofTaskCount(id: nat, offsets: seq<nat>, k: Key)
    requires Distinct(offsets)
    ensures KeyCount(ProofTasks(id, offsets), k) == One(k.bundle == id && k.part.ProofPart? && k.part.offset in offsets)
  {
    if offsets != [] {
      ProofTaskCount(id, offsets[1..], k);
      assert ProofTasks(id, offsets)[1..] == ProofTasks(id, offsets[1..]);
    }
  }

  /** A report turns `s` into `s'`, seen from key `k` and property `p`. */
  ghost predicate Reported(s: State, s': State, task: Task, done: seq<Entry>, k: Key, p: Entry -> bool) {
    && BundlesOk(s')
    && Owned(s', p) + Count(done, p) == Owned(s, p)
    && WorkCount(s', k) - WorkCount(s, k) == One(Required(s', k)) - One(Required(s, k)) + One(KeyOf(task) == k)
    && s'.out == s.out + ReleaseAll(done)
    && s' == s.(bundles := s'.bundles, taskQueue := s'.taskQueue, out := s'.out)
  }

  lemma PostedKeeps(s: State, task: Task, tx: Tx, k: Key, p: Entry -> bool)
    requires BundlesOk(s) && Required(s, KeyOf(task)) && task.work.PostTx?
    ensures Reported(s, Completed(s, s.bundles[task.bundle], task, Posted(tx)), task, [], k, p)
  {
    var b := s.bundles[task.bundle];
    var next := Task(task.bundle, BuildProofs(tx), 0);
    assert BundleOk(s, task.bundle, b);
    NextPhase(s, task.bundle, b.(phase := TxPosted, tx := Some(tx)), [next], k, p);
    CountOne(next, IsKey(k));
    assert s.out + ReleaseAll([]) == s.out;
  }

  lemma EmptyBuiltKeeps(s: State, task: Task, k: Key, p: Entry -> bool)
    requires BundlesOk(s) && Required(s, KeyOf(task)) && task.work.BuildProofs?
    ensures
      var b := s.bundles[task.bundle];
      Reported(s, Completed(s, b, task, Built([])), task, b.entries, k, p)
  {
    assert BundleOk(s, task.bundle, s.bundles[task.bundle]);
    DropBundle(s.bundles, task.bundle, p);
  }

  /** The next phase of a bundle. */
  lemma NextPhase(s: State, id: nat, b': Bundle, tasks: seq<Task>, k: Key, p: Entry -> bool)
    requires BundlesOk(s) && id in s.bundles && BundleOk(s, id, b') && b'.entries == s.bundles[id].entries
    ensures
      var s' := s.(bundles := s.bundles[id := b'], taskQueue := s.taskQueue + tasks);
      BundlesOk(s') && Owned(s', p) == Owned(s, p) && WorkCount(s', k) == WorkCount(s, k) + KeyCount(tasks, k)
  {
    SetBundle(s.bundles, id, b', p);
    CountAppend(s.taskQueue, tasks, IsKey(k));
  }

  function BuiltBundle(b: Bundle, offsets: seq<nat>): Bundle {
    b.(phase := ProofsBuilt, proofs := map o | o in offsets :: Pending)
  }

  /** What a bundle waits for when its proofs have been built. */
  lemma BuiltRequired(s: State, id: nat, offsets: seq<nat>, k: Key)
    requires BundlesOk(s) && id in s.bundles && Required(s, Key(id, BuildPart)) && offsets != []
    ensures
      var b' := BuiltBundle(s.bundles[id], offsets);
      var s' := s.(bundles := s.bundles[id := b']);
      && BundleOk(s, id, b')
      && One(Required(s', k)) - One(Required(s, k)) + One(Key(id, BuildPart) == k)
         == One(k.bundle == id && k.part.ProofPart? && k.part.offset in offsets)
  {
    assert BundleOk(s, id, s.bundles[id]);
    assert offsets[0] in BuiltBundle(s.bundles[id], offsets).proofs;
  }

  lemma BuiltKeeps(s: State, task: Task, offsets: seq<nat>, k: Key, p: Entry -> bool)
    requires BundlesOk(s) && Required(s, KeyOf(task)) && task.work.BuildProofs?
    requires offsets != [] && Distinct(offsets)
    ensures Reported(s, Completed(s, s.bundles[task.bundle], task, Built(offsets)), task, [], k, p)
  {
    var b' := BuiltBundle(s.bundles[task.bundle], offsets);
    BuiltRequired(s, task.bundle, offsets, k);
    NextPhase(s, task.bundle, b', ProofTasks(task.bundle, offsets), k, p);
    ProofTaskCount(task.bundle, offsets, k);
    assert s.out + ReleaseAll([]) == s.out;
  }

  /** The last proof was posted: the bundle is complete. */
  lemma LastSeeded(s: State, task: Task, b': Bundle, k: Key, p: Entry -> bool)
    requires BundlesOk(s) && Required(s, KeyOf(task)) && task.work.PostProof?
    requires
      var b := s.bundles[task.bundle];
      b' == b.(proofs := b.proofs[task.work.offset := Seeded]) && AllSeeded(b'.proofs)
    ensures Reported(s, Completed(s, s.bundles[task.bundle], task, ProofPosted), task, s.bundles[task.bundle].entries, k, p)
  {
    var b := s.bundles[task.bundle];
    assert BundleOk(s, task.bundle, b);
    DropBundle(s.bundles, task.bundle, p);
    assert s.bundles[task.bundle := b'] - {b.id} == s.bundles - {b.id};
    if Required(s, k) && k.bundle == task.bundle {
      assert b'.proofs[k.part.offset].Seeded?;
    }
  }

  lemma NothingMore(s: State)
    ensures s.taskQueue + [] == s.taskQueue && s.out + ReleaseAll([]) == s.out
  {
  }

  lemma SeededKeeps(s: State, task: Task, k: Key, p: Entry -> bool)
    requires BundlesOk(s) && Required(s, KeyOf(task)) && task.work.PostProof?
    ensures
      var b := s.bundles[task.bundle];
      var done := if AllSeeded(b.proofs[task.work.offset := Seeded]) then b.entries else [];
      Reported(s, Completed(s, b, task, ProofPosted), task, done, k, p)
  {
    var b := s.bundles[task.bundle];
    assert BundleOk(s, task.bundle, b);
    var b' := b.(proofs := b.proofs[task.work.offset := Seeded]);
    if AllSeeded(b'.proofs) {
      LastSeeded(s, task, b', k, p);
    } else {
      OneSeeded(s, task, b', k, p);
    }
  }

  lemma OneSeeded(s: State, task: Task, b': Bundle, k: Key, p: Entry -> bool)
    requires BundlesOk(s) && Required(s, KeyOf(task)) && task.work.PostProof?
    requires
      var b := s.bundles[task.bundle];
      b' == b.(proofs := b.proofs[task.work.offset := Seeded]) && !AllSeeded(b'.proofs)
    ensures Reported(s, Completed(s, s.bundles[task.bundle], task, ProofPosted), task, [], k, p)
  {
    assert BundleOk(s, task.bundle, s.bundles[task.bundle]);
    NextPhase(s, task.bundle, b', [], k, p);
    NothingMore(s);
    SeededNeeds(s.bundles[task.bundle], task.work.offset, b', k.part);
  }

  /** What a bundle needs with one more proof seeded. */
  lemma SeededNeeds(b: Bundle, offset: nat, b': Bundle, part: Part)
    requires b.phase.ProofsBuilt? && Needs(b, ProofPart(offset)) && b' == b.(proofs := b.proofs[offset := Seeded])
    ensures Needs(b', part) <==> Needs(b, part) && part != ProofPart(offset)
  {
  }

  /** A report of needed work: the bundle moves to its next phase or completes. */
  lemma CompletedKeeps(s: State, task: Task, result: Result, k: Key, p: Entry -> bool)
    requires BundlesOk(s) && Required(s, KeyOf(task)) && Processable(s, task, result)
    requires result.Built? ==> Distinct(result.offsets)
    ensures
      Reported(s, Completed(s, s.bundles[task.bundle], task, result), task, DoneEntries(s, task, result), k, p)
  {
    match task.work
    case PostTx(_) => PostedKeeps(s, task, result.tx, k, p);
    case BuildProofs(_) =>
      if result.offsets == [] {
        EmptyBuiltKeeps(s, task, k, p);
      } else {
        BuiltKeeps(s, task, result.offsets, k, p);
      }
    case PostProof(o) => SeededKeeps(s, task, k, p);
  }

  //////////////////////////////////////////////////////////////////////////////
  // Turns
  //////////////////////////////////////////////////////////////////////////////

  /** Messages that are consistent with the server: reports come from the worker that runs the
      task, and the task is still needed. */
  predicate Expected(s: State, m: Message) {
    match m
    case TaskComplete(w, task, result) =>
      && w < |s.workers| && s.workers[w] == Busy(task) && Required(s, KeyOf(task))
      && Fits(task.work, result) && (result.Built? ==> Distinct(result.offsets))
    case TaskFailed(w, task) => w < |s.workers| && s.workers[w] == Busy(task)
    case _ => true
  }

  function Done(s: State, m: Message): seq<Entry>
    requires Receivable(s, m)
  {
    if m.TaskComplete? then DoneEntries(s, m.task, m.result) else []
  }

  /** The effects of a turn before tasks are sent to workers. */
  function Reaction(s: State, m: Message): seq<Effect>
    requires Receivable(s, m)
  {
    match m
    case EnqueueItem(_) => if s.queue == [] then [ArmDispatch(s.nextRef)] else []
    case DispatchNow(_) => CancelPending(s)
    case IdleTimeout => CancelPending(s)
    case TaskComplete(w, task, result) => ReleaseAll(Done(s, m))
    case TaskFailed(_, task) => [RetryLater(task.(retries := task.retries + 1))]
    case RetryTask(_) => []
  }

  function CancelPending(s: State): seq<Effect> {
    if s.queue != [] && s.dispatchRef.Some? then [CancelDispatch(s.dispatchRef.value)] else []
  }

  /** How a turn changes the amount of work `k` held by the server beyond what bundles need. */
  function Shift(m: Message, k: Key): int {
    match m
    case TaskFailed(_, task) => 0 - One(KeyOf(task) == k)
    case RetryTask(task) => One(KeyOf(task) == k)
    case _ => 0
  }

  function Arrived(m: Message, p: Entry -> bool): int {
    if m.EnqueueItem? then One(p(m.entry)) else 0
  }

  /** A turn, seen from key `k` and property `p`. */
  ghost predicate TurnKept(s: State, s': State, m: Message, k: Key, p: Entry -> bool)
    requires Receivable(s, m)
  {
    && WorkCount(s', k) - WorkCount(s, k) == One(Required(s', k)) - One(Required(s, k)) + Shift(m, k)
    && Owned(s', p) + Count(Done(s, m), p) == Owned(s, p) + Arrived(m, p)
  }

  ghost predicate ReactionOk(s: State, m: Message, k: Key, p: Entry -> bool)
    requires Sound(s) && Receivable(s, m)
  {
    var s' := React(s, m);
    && Sound(s') && !Dispatchable(s') && BundlesOk(s') && TurnKept(s, s', m, k, p)
    && s'.out == s.out + Reaction(s, m) && |s'.workers| == |s.workers|
    && s'.maxItems == s.maxItems && s'.maxSize == s.maxSize
  }

  lemma EnqueueReaction(s: State, m: Message, k: Key, p: Entry -> bool)
    requires Settled(s) && m.EnqueueItem?
    ensures ReactionOk(s, m, k, p)
  {
    DispatchWhileFullKeeps(AddEntry(s, m.entry), k, p);
    assert s.out + [] == s.out;
  }

  lemma DispatchReaction(s: State, m: Message, k: Key, p: Entry -> bool)
    requires Settled(s) && (m.DispatchNow? || m.IdleTimeout?)
    ensures ReactionOk(s, m, k, p)
  {
    DispatchAllKeeps(s, k, p);
    DispatchAllOut(s);
  }

  lemma DispatchAllOut(s: State)
    ensures DispatchAll(s).out == s.out + CancelPending(s)
  {
    assert s.out + [] == s.out;
  }

  lemma CompleteReaction(s: State, m: Message, k: Key, p: Entry -> bool)
    requires Settled(s) && m.TaskComplete? && Expected(s, m)
    ensures ReactionOk(s, m, k, p)
  {
    var s1 := Freed(s, m.worker);
    CountUpdate(s.workers, m.worker, Idle, Runs(k));
    assert BundlesOk(s1);
    CompletedKeeps(s1, m.task, m.result, k, p);
  }

  lemma FailReaction(s: State, m: Message, k: Key, p: Entry -> bool)
    requires Settled(s) && m.TaskFailed? && Expected(s, m)
    ensures ReactionOk(s, m, k, p)
  {
    CountUpdate(s.workers, m.failedWorker, Idle, Runs(k));
  }

  lemma RetryReaction(s: State, m: Message, k: Key, p: Entry -> bool)
    requires Settled(s) && m.RetryTask?
    ensures ReactionOk(s, m, k, p)
  {
    CountSnoc(s.taskQueue, m.retry, IsKey(k));
    assert s.out + [] == s.out;
  }

  lemma TurnReaction(s: State, m: Message, k: Key, p: Entry -> bool)
    requires Settled(s) && Expected(s, m)
    ensures Receivable(s, m) && ReactionOk(s, m, k, p)
  {
    match m {
      case EnqueueItem(_) => EnqueueReaction(s, m, k, p);
      case DispatchNow(_) => DispatchReaction(s, m, k, p);
      case IdleTimeout => DispatchReaction(s, m, k, p);
      case TaskComplete(_, _, _) => CompleteReaction(s, m, k, p);
      case TaskFailed(_, _) => FailReaction(s, m, k, p);
      case RetryTask(_) => RetryReaction(s, m, k, p);
    }
  }

  /** Every turn leaves the server settled, loses and repeats no work and no entry, and emits the
      reaction followed by the tasks sent to workers. */
  lemma TurnKeeps(s: State, m: Message, k: Key, p: Entry -> bool)
    requires Settled(s) && Expected(s, m)
    ensures Receivable(s, m)
    ensures
      var s' := Receive(s, m);
      && Settled(s') && TurnKept(s, s', m, k, p) && |s'.workers| == |s.workers|
      && s'.maxItems == s.maxItems && s'.maxSize == s.maxSize
  {
    TurnReaction(s, m, k, p);
    AssignKeepsTurn(s, React(s, m), m, k, p);
  }

  /** Sending tasks to workers changes none of this. */
  lemma AssignKeepsTurn(s: State, s1: State, m: Message, k: Key, p: Entry -> bool)
    requires Receivable(s, m) && Sound(s1) && !Dispatchable(s1) && BundlesOk(s1) && TurnKept(s, s1, m, k, p)
    ensures
      var s' := AssignFrom(s1, 0);
      && Settled(s') && TurnKept(s, s', m, k, p) && |s'.workers| == |s1.workers|
      && s'.maxItems == s1.maxItems && s'.maxSize == s1.maxSize
  {
    AssignKeeps(s1, 0);
    AssignKeepsWork(s1, 0, k);
  }

  /** The effects of a turn: the reaction, then one task for each worker that became busy. */
  lemma TurnOut(s: State, m: Message) returns (sent: seq<Effect>)
    requires Settled(s) && Expected(s, m)
    ensures Receivable(s, m) && |React(s, m).workers| == |Receive(s, m).workers|
    ensures Receive(s, m).out == s.out + Reaction(s, m) + sent
    ensures Sends(React(s, m), Receive(s, m), 0, sent)
  {
    TurnReaction(s, m, Key(0, PostPart), _ => true);
    sent := AssignSends(React(s, m), 0);
  }
}

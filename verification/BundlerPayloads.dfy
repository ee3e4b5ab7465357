/** What the tasks of the bundling server carry, and what a turn does with queue and workers
    (src/dev_bundler.erl:328-478 and 487-560). */
module BundlerPayloads {
  import opened Options
  import opened MapSum
  import opened Counting
  import opened Bundler
  import opened BundlerInvariants

  //////////////////////////////////////////////////////////////////////////////
  // What tasks carry
  //////////////////////////////////////////////////////////////////////////////

  /** A task belongs to a live bundle: it posts all its entries, or proves its transaction. */
  predicate TaskOk(s: State, t: Task) {
    && t.bundle in s.bundles
    && match t.work
       case PostTx(entries) => entries == s.bundles[t.bundle].entries
       case BuildProofs(tx) => s.bundles[t.bundle].tx == Some(tx)
       case PostProof(_) => true
  }

  /** Queued or running. */
  predicate HasTask(s: State, t: Task) {
    t in s.taskQueue || Busy(t) in s.workers
  }

  /** Live bundles keep their entries, and their transaction once they have one. */
  ghost predicate Kept(s: State, s': State) {
    forall id | id in s.bundles && id in s'.bundles ::
      && s'.bundles[id].entries == s.bundles[id].entries
      && (s.bundles[id].tx.Some? ==> s'.bundles[id].tx == s.bundles[id].tx)
  }

  /** All bundles are still there with their entries, and new tasks carry what their bundles say. */
  ghost predicate Adds(s: State, s': State) {
    && Kept(s, s') && (forall id | id in s.bundles :: id in s'.bundles)
    && forall t | HasTask(s', t) :: HasTask(s, t) || TaskOk(s', t)
  }

  lemma AddsMore(s: State, s': State, s'': State)
    requires Adds(s, s') && Adds(s', s'')
    ensures Adds(s, s'')
  {
    forall t | HasTask(s'', t) ensures HasTask(s, t) || TaskOk(s'', t) {
      if !HasTask(s, t) && HasTask(s', t) {
        assert TaskOk(s', t);
      }
    }
  }

  lemma WithBundleAdds(s: State, entries: seq<Entry>)
    requires BundlesOk(s) && 0 < |entries| <= s.maxItems
    ensures Adds(s, WithBundle(s, entries))
  {
    AddBundleOk(s, entries);
  }

  lemma DispatchOneAdds(s: State)
    requires Sound(s) && BundlesOk(s) && s.queue != []
    ensures Adds(s, DispatchOne(s)) && Sound(DispatchOne(s)) && BundlesOk(DispatchOne(s))
  {
    WithBundleAdds(s, s.queue[..Taken(s)]);
    AddBundleOk(s, s.queue[..Taken(s)]);
  }

  lemma {:induction false} DispatchWhileFullAdds(s: State)
    requires Sound(s) && BundlesOk(s)
    ensures Adds(s, DispatchWhileFull(s))
    decreases |s.queue|
  {
    if Dispatchable(s) {
      DispatchOneAdds(s);
      DispatchWhileFullAdds(DispatchOne(s));
      AddsMore(s, DispatchOne(s), DispatchWhileFull(s));
    }
  }

  lemma DispatchAllAdds(s: State)
    requires Sound(s) && BundlesOk(s) && |s.queue| <= s.maxItems
    ensures Adds(s, DispatchAll(s))
  {
    if s.queue != [] {
      var s' := if s.dispatchRef.Some? then Emit(s, CancelDispatch(s.dispatchRef.value)) else s;
      WithBundleAdds(s'.(queue := [], bytes := 0, dispatchRef := None), s.queue);
    }
  }

  /** A report moves one bundle on, and the tasks it adds carry what that bundle says. */
  lemma CompletedTasks(s: State, task: Task, result: Result)
    requires BundlesOk(s) && Required(s, KeyOf(task)) && Processable(s, task, result)
    ensures
      var s' := Completed(s, s.bundles[task.bundle], task, result);
      Kept(s, s') && forall t | HasTask(s', t) :: HasTask(s, t) || TaskOk(s', t)
  {
    assert BundleOk(s, task.bundle, s.bundles[task.bundle]);
  }

  /** Where the tasks after a message come from, before they are assigned. */
  ghost predicate TasksFrom(s: State, s': State, m: Message) {
    Kept(s, s') && forall t | HasTask(s', t) :: HasTask(s, t) || TaskOk(s', t) || m == RetryTask(t)
  }

  lemma ReactTasks(s: State, m: Message)
    requires Settled(s) && Expected(s, m) && Receivable(s, m)
    ensures TasksFrom(s, React(s, m), m)
  {
    match m {
      case EnqueueItem(entry) => DispatchWhileFullAdds(AddEntry(s, entry));
      case DispatchNow(_) => DispatchAllAdds(s);
      case IdleTimeout => DispatchAllAdds(s);
      case TaskComplete(w, task, result) => CompletedTasks(Freed(s, w), task, result);
      case TaskFailed(_, _) =>
      case RetryTask(_) =>
    }
  }

  lemma {:induction false} AssignTasks(s: State, w: nat, t: Task)
    requires w <= |s.workers|
    ensures HasTask(AssignFrom(s, w), t) <==> HasTask(s, t)
    decreases |s.workers| - w
  {
    if w < |s.workers| && s.taskQueue != [] {
      if s.workers[w].Idle? {
        AssignOneTask(s, w, t);
        AssignTasks(AssignOne(s, w), w + 1, t);
      } else {
        AssignTasks(s, w + 1, t);
      }
    }
  }

  lemma AssignOneTask(s: State, w: nat, t: Task)
    requires w < |s.workers| && s.workers[w].Idle? && s.taskQueue != []
    ensures HasTask(AssignOne(s, w), t) <==> HasTask(s, t)
  {
    var s' := AssignOne(s, w);
    assert s.taskQueue == [s.taskQueue[0]] + s.taskQueue[1..];
    assert s'.workers[w] == Busy(s.taskQueue[0]);
    if Busy(t) in s.workers {
      var i :| 0 <= i < |s.workers| && s.workers[i] == Busy(t);
      assert s'.workers[i] == Busy(t);
    }
  }

  /** Where the tasks after a turn come from. */
  lemma TurnTasks(s: State, m: Message)
    requires Settled(s) && Expected(s, m) && Receivable(s, m)
    ensures TasksFrom(s, Receive(s, m), m)
  {
    var s1 := React(s, m);
    ReactTasks(s, m);
    AssignKeeps(s1, 0);
    forall t | HasTask(AssignFrom(s1, 0), t) ensures HasTask(s, t) || TaskOk(AssignFrom(s1, 0), t) || m == RetryTask(t) {
      AssignTasks(s1, 0, t);
      assert HasTask(s1, t);
    }
  }

  //////////////////////////////////////////////////////////////////////////////
  // Posted entries
  //////////////////////////////////////////////////////////////////////////////

  function PostedCounts(bundles: map<nat, Bundle>, p: Entry -> bool): map<nat, int> {
    map id | id in bundles :: if bundles[id].tx.Some? then Count(bundles[id].entries, p) else 0
  }

  /** How many entries of live bundles with a transaction have a property. */
  ghost function InPosted(s: State, p: Entry -> bool): int { Sum(PostedCounts(s.bundles, p)) }

  function PostedPart(b: Bundle, p: Entry -> bool): nat { if b.tx.Some? then Count(b.entries, p) else 0 }

  lemma SetPosted(bundles: map<nat, Bundle>, id: nat, b: Bundle, p: Entry -> bool)
    ensures
      Sum(PostedCounts(bundles[id := b], p))
      == Sum(PostedCounts(bundles, p)) + PostedPart(b, p) - (if id in bundles then PostedPart(bundles[id], p) else 0)
  {
    SumUpdate(PostedCounts(bundles, p), id, PostedPart(b, p));
    assert PostedCounts(bundles[id := b], p) == PostedCounts(bundles, p)[id := PostedPart(b, p)];
  }

  lemma DropPosted(bundles: map<nat, Bundle>, id: nat, p: Entry -> bool)
    requires id in bundles
    ensures Sum(PostedCounts(bundles - {id}, p)) == Sum(PostedCounts(bundles, p)) - PostedPart(bundles[id], p)
  {
    SumRemove(PostedCounts(bundles, p), id);
    assert PostedCounts(bundles - {id}, p) == PostedCounts(bundles, p) - {id};
  }

  /** The entries in a transaction that a worker reports as posted. */
  function PostedNow(m: Message): seq<Entry> {
    if m.TaskComplete? && m.task.work.PostTx? then m.task.work.entries else []
  }

  lemma WithBundlePosted(s: State, entries: seq<Entry>, p: Entry -> bool)
    requires BundlesOk(s) && 0 < |entries| <= s.maxItems
    ensures InPosted(WithBundle(s, entries), p) == InPosted(s, p)
  {
    AddBundleOk(s, entries);
    SetPosted(s.bundles, s.nextRef, Bundle(s.nextRef, entries, Initializing, None, map[]), p);
  }

  lemma {:induction false} DispatchWhileFullPosted(s: State, p: Entry -> bool)
    requires Sound(s) && BundlesOk(s)
    ensures InPosted(DispatchWhileFull(s), p) == InPosted(s, p)
    decreases |s.queue|
  {
    if Dispatchable(s) {
      WithBundlePosted(s, s.queue[..Taken(s)], p);
      DispatchOneAdds(s);
      DispatchWhileFullPosted(DispatchOne(s), p);
    }
  }

  lemma DispatchAllPosted(s: State, p: Entry -> bool)
    requires Sound(s) && BundlesOk(s) && |s.queue| <= s.maxItems
    ensures InPosted(DispatchAll(s), p) == InPosted(s, p)
  {
    if s.queue != [] {
      var s' := if s.dispatchRef.Some? then Emit(s, CancelDispatch(s.dispatchRef.value)) else s;
      WithBundlePosted(s'.(queue := [], bytes := 0, dispatchRef := None), s.queue, p);
    }
  }

  /** Only entries that were posted are completed. */
  lemma CompletedPosted(s: State, task: Task, result: Result, p: Entry -> bool)
    requires BundlesOk(s) && Required(s, KeyOf(task)) && Processable(s, task, result) && TaskOk(s, task)
    ensures
      var s' := Completed(s, s.bundles[task.bundle], task, result);
      InPosted(s', p) + Count(DoneEntries(s, task, result), p)
      == InPosted(s, p) + if task.work.PostTx? then Count(task.work.entries, p) else 0
  {
    var (id, b) := (task.bundle, s.bundles[task.bundle]);
    assert BundleOk(s, id, b);
    match task.work
    case PostTx(_) => SetPosted(s.bundles, id, b.(phase := TxPosted, tx := Some(result.tx)), p);
    case BuildProofs(_) =>
      if result.offsets == [] {
        DropPosted(s.bundles, id, p);
      } else {
        SetPosted(s.bundles, id, BuiltBundle(b, result.offsets), p);
      }
    case PostProof(o) =>
      var b' := b.(proofs := b.proofs[o := Seeded]);
      SetPosted(s.bundles, id, b', p);
      if AllSeeded(b'.proofs) {
        DropPosted(s.bundles[id := b'], id, p);
      }
  }

  lemma TurnPosted(s: State, m: Message, p: Entry -> bool)
    requires Settled(s) && Expected(s, m) && Receivable(s, m)
    requires m.TaskComplete? ==> TaskOk(s, m.task)
    ensures InPosted(Receive(s, m), p) + Count(Done(s, m), p) == InPosted(s, p) + Count(PostedNow(m), p)
  {
    AssignKeeps(React(s, m), 0);
    match m {
      case EnqueueItem(entry) => DispatchWhileFullPosted(AddEntry(s, entry), p);
      case DispatchNow(_) => DispatchAllPosted(s, p);
      case IdleTimeout => DispatchAllPosted(s, p);
      case TaskComplete(w, task, result) => CompletedPosted(Freed(s, w), task, result, p);
      case TaskFailed(_, _) =>
      case RetryTask(_) =>
    }
  }

  //////////////////////////////////////////////////////////////////////////////
  // Which bundles are made
  //////////////////////////////////////////////////////////////////////////////

  /** One new bundle with just these entries, and the task that posts them last in the queue. */
  ghost predicate OneBundle(s: State, s': State, entries: seq<Entry>) {
    exists id ::
      && id !in s.bundles && s'.bundles == s.bundles[id := Bundle(id, entries, Initializing, None, map[])]
      && s'.taskQueue == s.taskQueue + [Task(id, PostTx(entries), 0)]
  }

  /** An item waits with the others as long as they are fewer than the limit and smaller than the limit;
      otherwise all of them, newest first, become one bundle. The first one to wait arms a timer. */
  lemma EnqueueExactly(s: State, entry: Entry)
    requires Settled(s)
    ensures
      var (all, s') := ([entry] + s.queue, React(s, EnqueueItem(entry)));
      && (if |all| < s.maxItems && s.bytes + entry.size < s.maxSize then
            s'.queue == all && s'.bundles == s.bundles && s'.taskQueue == s.taskQueue
          else
            s'.queue == [] && OneBundle(s, s', all))
      && (if s.queue == [] then s'.dispatchRef == Some(s.nextRef) && s'.out == s.out + [ArmDispatch(s.nextRef)]
          else s'.dispatchRef == s.dispatchRef && s'.out == s.out)
  {
    var s1 := AddEntry(s, entry);
    if Dispatchable(s1) {
      var (all, id) := (s1.queue, s1.nextRef);
      assert all[..Taken(s1)] == all && all[Taken(s1)..] == [];
      AddBundleOk(s1, all);
      var s2 := DispatchOne(s1);
      assert !Dispatchable(s2) && DispatchWhileFull(s1) == s2;
      assert s2.bundles == s.bundles[id := Bundle(id, all, Initializing, None, map[])];
    }
  }

  /** A timer or an idle timeout makes one bundle of all that waits, and cancels the timer. */
  lemma DispatchExactly(s: State, m: Message)
    requires Settled(s) && (m.DispatchNow? || m.IdleTimeout?)
    ensures
      var s' := React(s, m);
      if s.queue == [] then s' == s
      else
        && s'.queue == [] && s'.dispatchRef == None && OneBundle(s, s', s.queue)
        && s'.out == s.out + match s.dispatchRef case None => [] case Some(timer) => [CancelDispatch(timer)]
  {
    if s.queue != [] {
      var s1 := if s.dispatchRef.Some? then Emit(s, CancelDispatch(s.dispatchRef.value)) else s;
      var (all, id) := (s.queue, s.nextRef);
      AddBundleOk(s1.(queue := [], bytes := 0, dispatchRef := None), all);
      assert React(s, m).bundles == s.bundles[id := Bundle(id, all, Initializing, None, map[])];
    }
  }

  //////////////////////////////////////////////////////////////////////////////
  // What reports do
  //////////////////////////////////////////////////////////////////////////////

  /** The server before tasks are assigned: its worker is free again. */
  predicate Freeing(s: State, s': State, w: nat)
    requires w < |s.workers|
  {
    s'.workers == s.workers[w := Idle] && s'.queue == s.queue && s'.dispatchRef == s.dispatchRef
  }

  /** A posted transaction is kept with its bundle, and its proofs are to be built. */
  lemma PostedReport(s: State, w: nat, task: Task, tx: Tx)
    requires Settled(s) && Expected(s, TaskComplete(w, task, Posted(tx)))
    ensures
      var (s', id) := (React(s, TaskComplete(w, task, Posted(tx))), task.bundle);
      && id in s.bundles && Freeing(s, s', w) && s'.out == s.out
      && s'.bundles == s.bundles[id := Bundle(id, s.bundles[id].entries, TxPosted, Some(tx), map[])]
      && s'.taskQueue == s.taskQueue + [Task(id, BuildProofs(tx), 0)]
  {
    assert BundleOk(s, task.bundle, s.bundles[task.bundle]);
  }

  /** Each proof that was built is to be posted, in order; a bundle without any is complete. */
  lemma BuiltReport(s: State, w: nat, task: Task, offsets: seq<nat>)
    requires Settled(s) && Expected(s, TaskComplete(w, task, Built(offsets)))
    ensures
      var (s', id) := (React(s, TaskComplete(w, task, Built(offsets))), task.bundle);
      && id in s.bundles && Freeing(s, s', w)
      && if offsets == [] then
           && s'.bundles == s.bundles - {id} && s'.taskQueue == s.taskQueue
           && s'.out == s.out + ReleaseAll(s.bundles[id].entries)
         else
           && id in s'.bundles && s'.out == s.out && s'.bundles == s.bundles[id := s'.bundles[id]]
           && s'.bundles[id] == s.bundles[id].(phase := ProofsBuilt, proofs := s'.bundles[id].proofs)
           && (forall o :: o in s'.bundles[id].proofs <==> o in offsets)
           && (forall o | o in s'.bundles[id].proofs :: s'.bundles[id].proofs[o] == Pending)
           && |s'.taskQueue| == |s.taskQueue| + |offsets|
           && forall i | 0 <= i < |s'.taskQueue| ::
                s'.taskQueue[i]
                == if i < |s.taskQueue| then s.taskQueue[i] else Task(id, PostProof(offsets[i - |s.taskQueue|]), 0)
  {
    assert BundleOk(s, task.bundle, s.bundles[task.bundle]);
  }

  /** A posted proof is marked, and the last one completes its bundle. */
  lemma ProofReport(s: State, w: nat, task: Task)
    requires Settled(s) && Expected(s, TaskComplete(w, task, ProofPosted))
    ensures
      var (s', id) := (React(s, TaskComplete(w, task, ProofPosted)), task.bundle);
      && id in s.bundles && Freeing(s, s', w) && s'.taskQueue == s.taskQueue && task.work.PostProof?
      && var (b, o) := (s.bundles[id], task.work.offset);
         if forall o' | o' in b.proofs && o' != o :: b.proofs[o'] == Seeded then
           s'.bundles == s.bundles - {id} && s'.out == s.out + ReleaseAll(b.entries)
         else
           s'.bundles == s.bundles[id := b.(proofs := b.proofs[o := Seeded])] && s'.out == s.out
  {
    var (id, b, o) := (task.bundle, s.bundles[task.bundle], task.work.offset);
    assert BundleOk(s, id, b);
    var b' := b.(proofs := b.proofs[o := Seeded]);
    assert s.bundles[id := b'] - {id} == s.bundles - {id};
    assert AllSeeded(b'.proofs) <==> forall o' | o' in b.proofs && o' != o :: b.proofs[o'] == Seeded by {
      assert forall o' | o' in b.proofs && o' != o :: b'.proofs[o'] == b.proofs[o'];
    }
  }

  /** A failed task waits to be tried again, once more. */
  lemma FailureReport(s: State, w: nat, task: Task)
    requires Settled(s) && Expected(s, TaskFailed(w, task))
    ensures
      var s' := React(s, TaskFailed(w, task));
      && Freeing(s, s', w) && s'.taskQueue == s.taskQueue && s'.bundles == s.bundles
      && s'.out == s.out + [RetryLater(Task(task.bundle, task.work, task.retries + 1))]
  {
  }

  //////////////////////////////////////////////////////////////////////////////
  // Which worker gets which task
  //////////////////////////////////////////////////////////////////////////////

  /** How many of the workers [w, i) are idle. */
  function IdleIn(workers: seq<WorkerStatus>, w: nat, i: nat): nat
    requires w <= i <= |workers|
    decreases i - w
  {
    if w == i then 0 else One(workers[w].Idle?) + IdleIn(workers, w + 1, i)
  }

  lemma {:induction false} IdleElsewhere(workers: seq<WorkerStatus>, j: nat, x: WorkerStatus, w: nat, i: nat)
    requires j < w <= i <= |workers|
    ensures IdleIn(workers[j := x], w, i) == IdleIn(workers, w, i)
    decreases i - w
  {
    if w < i {
      IdleElsewhere(workers, j, x, w + 1, i);
    }
  }

  lemma {:induction false} AssignFromExactly(s: State, w: nat, i: nat)
    requires w <= i <= |s.workers|
    ensures
      var (s', k) := (AssignFrom(s, w), IdleIn(s.workers, w, i));
      && |s'.workers| == |s.workers|
      && (i == |s.workers| ==> s'.taskQueue == if k <= |s.taskQueue| then s.taskQueue[k..] else [])
      && (i < |s.workers| ==>
            s'.workers[i] == if s.workers[i].Idle? && k < |s.taskQueue| then Busy(s.taskQueue[k]) else s.workers[i])
    decreases |s.workers| - w
  {
    AssignKeeps(s, w);
    if w < |s.workers| && s.taskQueue != [] {
      var s1 := if s.workers[w].Idle? then AssignOne(s, w) else s;
      if w < i {
        AssignFromExactly(s1, w + 1, i);
        if s.workers[w].Idle? {
          IdleElsewhere(s.workers, w, Busy(s.taskQueue[0]), w + 1, i);
        }
      } else {
        AssignKeeps(s1, w + 1);
      }
    }
  }

  /** Idle workers get the oldest tasks, one each in their order; the rest of the tasks stay, and busy
      workers are left alone. */
  lemma AssignExactly(s: State, i: nat)
    requires i < |s.workers|
    ensures
      var (s', k) := (AssignFrom(s, 0), IdleIn(s.workers, 0, i));
      && |s'.workers| == |s.workers|
      && s'.workers[i] == if s.workers[i].Idle? && k < |s.taskQueue| then Busy(s.taskQueue[k]) else s.workers[i]
    ensures
      var all := IdleIn(s.workers, 0, |s.workers|);
      AssignFrom(s, 0).taskQueue == if all <= |s.taskQueue| then s.taskQueue[all..] else []
  {
    AssignFromExactly(s, 0, i);
    AssignFromExactly(s, 0, |s.workers|);
  }
}

/** The bundling service as a whole: upload requests, the server and its mailbox, workers, timers
    and the ledger that holds the payments (src/dev_bundler.erl, src/dev_bundler_escrow.erl). */
module BundlerSystem {
  import opened Options
  import opened MapSum
  import opened Counting
  import opened Bundler
  import opened BundlerInvariants
  import opened BundlerPayloads
  import Ledger

  //////////////////////////////////////////////////////////////////////////////
  // Escrow requests
  //////////////////////////////////////////////////////////////////////////////

  /** What the node charges: nothing if it has no ledger or no pricing, or the answer of the
      pricing device. */
  datatype Quote = NoProcessor | QuoteFailed | Price(amount: nat)

  datatype ReserveReply = Granted(escrow: Escrow) | Denied

  function ReservationIdOf(item: ItemId): Ledger.ReservationId { item + "-bundler" }

  function ReserveAction(item: ItemId, amount: nat, payer: Ledger.Account, recipient: Ledger.Account): Ledger.Action {
    Ledger.Reserve(Some(ReservationIdOf(item)), Some(payer), Some(recipient), Some(amount))
  }

  /** Reserve the price of an item; the item must have exactly one signer, its payer. */
  function RequestReserve(
    l: Ledger.State, item: ItemId, quote: Quote, payer: Option<Ledger.Account>, recipient: Ledger.Account
  ): (result: (ReserveReply, Ledger.State)) {
    match quote
    case NoProcessor => (Granted(NoEscrow), l)
    case QuoteFailed => (Denied, l)
    case Price(amount) =>
      if amount == 0 then (Granted(NoEscrow), l)
      else if payer.None? then (Denied, l)
      else
        var action := ReserveAction(item, amount, payer.value, recipient);
        if Ledger.Answer(l, action).Ok? then (Granted(Paid(ReservationIdOf(item), recipient)), Ledger.Apply(l, action))
        else (Denied, l)
  }

  function ReleaseEscrowed(l: Ledger.State, e: Escrow): Ledger.State {
    if e.NoEscrow? then l else Ledger.Apply(l, Ledger.Release(e.id, Some(e.recipient)))
  }

  function RefundEscrowed(l: Ledger.State, e: Escrow): Ledger.State {
    if e.NoEscrow? then l else Ledger.Apply(l, Ledger.Refund(e.id))
  }

  //////////////////////////////////////////////////////////////////////////////
  // The system
  //////////////////////////////////////////////////////////////////////////////

  /** `requests` are uploads between their reservation and their enqueue message. A worker that is
      busy in the server and has no report in the mailbox is at work. The last four fields are
      history: entries the server took in, entries in transactions that workers reported as posted,
      completed entries, refunded entries. */
  datatype Sys = Sys(
    server: State,
    ledger: Ledger.State,
    requests: seq<Entry>,
    mailbox: seq<Message>,
    timers: set<nat>,
    retries: seq<Task>,
    enqueued: seq<Entry>,
    posted: seq<Entry>,
    completed: seq<Entry>,
    refunded: seq<Entry>
  )

  datatype Action =
    | Upload(item: ItemId, size: nat, quote: Quote, payer: Option<Ledger.Account>, recipient: Ledger.Account)
    | CacheWritten(i: nat)
    | CacheFailed(j: nat)
    | Deliver(n: nat)
    | Idle
    | Report(worker: nat, result: Result)
    | Fail(failing: nat)
    | DispatchTimer(timer: nat)
    | RetryTimer(r: nat)
    | Charge(account: Option<Ledger.Account>, to: Option<Ledger.Account>, quantity: Option<int>)

  function Reporter(m: Message): Option<nat> {
    match m
    case TaskComplete(w, _, _) => Some(w)
    case TaskFailed(w, _) => Some(w)
    case _ => None
  }

  predicate AtWork(s: Sys, w: nat) {
    && w < |s.server.workers| && s.server.workers[w].Busy?
    && forall m | m in s.mailbox :: Reporter(m) != Some(w)
  }

  /** Mailbox order is left open: any waiting message may be received next. */
  predicate Enabled(s: Sys, a: Action) {
    match a
    case Upload(_, _, _, _, _) => true
    case CacheWritten(i) => i < |s.requests|
    case CacheFailed(i) => i < |s.requests|
    case Deliver(i) => i < |s.mailbox|
    case Idle => true
    case Report(w, result) =>
      AtWork(s, w) && Fits(s.server.workers[w].task.work, result) && (result.Built? ==> Distinct(result.offsets))
    case Fail(w) => AtWork(s, w)
    case DispatchTimer(t) => t in s.timers
    case RetryTimer(i) => i < |s.retries|
    case Charge(_, _, _) => true
  }

  function Perform(s: Sys, effects: seq<Effect>): Sys
    decreases effects
  {
    if effects == [] then s
    else
      var s' :=
        match effects[0]
        case Execute(_, _) => s
        case ArmDispatch(t) => s.(timers := s.timers + {t})
        case CancelDispatch(t) => s.(timers := s.timers - {t})
        case RetryLater(task) => s.(retries := s.retries + [task])
        case ReleaseEscrow(e) => s.(ledger := ReleaseEscrowed(s.ledger, e));
      Perform(s', effects[1..])
  }

  /** The server receives `m`, and its effects happen. */
  function Turn(s: Sys, m: Message): Sys
    requires Sound(s.server) && Receivable(s.server, m)
  {
    var server' := Receive(s.server, m);
    Perform(s.(server := server'.(out := []),
               enqueued := s.enqueued + (if m.EnqueueItem? then [m.entry] else []),
               posted := s.posted + PostedNow(m),
               completed := s.completed + Done(s.server, m)),
            server'.out)
  }

  /** The server can process what the action makes it receive; otherwise it crashes. */
  predicate Survives(s: Sys, a: Action)
    requires Enabled(s, a)
  {
    match a
    case Deliver(i) => Sound(s.server) && Receivable(s.server, s.mailbox[i])
    case Idle => Sound(s.server)
    case _ => true
  }

  function Step(s: Sys, a: Action): Sys
    requires Enabled(s, a) && Survives(s, a)
  {
    match a
    case Upload(item, size, quote, payer, recipient) =>
      var (reply, ledger') := RequestReserve(s.ledger, item, quote, payer, recipient);
      if reply.Denied? then s
      else s.(ledger := ledger', requests := s.requests + [Entry(item, size, reply.escrow)])
    case CacheWritten(i) =>
      s.(requests := Without(s.requests, i), mailbox := s.mailbox + [EnqueueItem(s.requests[i])])
    case CacheFailed(i) =>
      s.(requests := Without(s.requests, i), ledger := RefundEscrowed(s.ledger, s.requests[i].escrow),
         refunded := s.refunded + [s.requests[i]])
    case Deliver(i) => Turn(s.(mailbox := Without(s.mailbox, i)), s.mailbox[i])
    case Idle => Turn(s, IdleTimeout)
    case Report(w, result) => s.(mailbox := s.mailbox + [TaskComplete(w, s.server.workers[w].task, result)])
    case Fail(w) => s.(mailbox := s.mailbox + [TaskFailed(w, s.server.workers[w].task)])
    case DispatchTimer(t) => s.(timers := s.timers - {t}, mailbox := s.mailbox + [DispatchNow(t)])
    case RetryTimer(i) => s.(retries := Without(s.retries, i), mailbox := s.mailbox + [RetryTask(s.retries[i])])
    case Charge(account, to, quantity) => s.(ledger := Ledger.Apply(s.ledger, Ledger.Charge(account, to, quantity)))
  }

  function Initial(maxSize: nat, maxItems: nat, numWorkers: nat, balances: map<Ledger.Account, int>): Sys {
    Sys(State(maxSize, maxItems, [], 0, seq(numWorkers, _ => WorkerStatus.Idle), [], map[], None, 0, []),
        Ledger.State(balances, map[]), [], [], {}, [], [], [], [], [])
  }

  //////////////////////////////////////////////////////////////////////////////
  // The invariant
  //////////////////////////////////////////////////////////////////////////////

  function IsRetry(k: Key): Message -> bool { (m: Message) => m.RetryTask? && KeyOf(m.retry) == k }

  function Carries(p: Entry -> bool): Message -> bool { (m: Message) => m.EnqueueItem? && p(m.entry) }

  function PaidBy(id: Ledger.ReservationId): Entry -> bool { (e: Entry) => e.escrow.Paid? && e.escrow.id == id }

  /** All work on `k`: queued or running in the server, failed and waiting for its retry. */
  function Outstanding(s: Sys, k: Key): nat {
    WorkCount(s.server, k) + Count(s.mailbox, IsRetry(k)) + KeyCount(s.retries, k)
  }

  /** All live entries with a property: requested, in the mailbox, queued, or in a live bundle. */
  ghost function Live(s: Sys, p: Entry -> bool): int {
    Count(s.requests, p) + Count(s.mailbox, Carries(p)) + Owned(s.server, p)
  }

  predicate HasStatus(l: Ledger.State, id: Ledger.ReservationId, status: Ledger.Status) {
    id in l.reservations && l.reservations[id].status == status
  }

  /** Each key of work that a live bundle waits for is outstanding exactly once, and no other. */
  ghost predicate WorkMatches(s: Sys) {
    forall k :: Outstanding(s, k) == One(Required(s.server, k))
  }

  /** Every entry the server took in is queued, in one live bundle, or completed. */
  ghost predicate EntriesKept(s: Sys) {
    forall p :: Count(s.enqueued, p) == Owned(s.server, p) + Count(s.completed, p)
  }

  /** A reservation is in escrow exactly while one live entry carries it, released exactly when its
      entry completed, and refunded exactly when its upload failed. */
  ghost predicate PaymentsMatch(s: Sys) {
    forall id ::
      && Live(s, PaidBy(id)) == One(HasStatus(s.ledger, id, Ledger.Reserved))
      && Count(s.completed, PaidBy(id)) == One(HasStatus(s.ledger, id, Ledger.Released))
      && Count(s.refunded, PaidBy(id)) == One(HasStatus(s.ledger, id, Ledger.Refunded))
  }

  /** A report comes from the worker that runs the task, and is of the right kind. */
  predicate ReportOk(workers: seq<WorkerStatus>, m: Message) {
    match m
    case TaskComplete(w, task, result) =>
      w < |workers| && workers[w] == Busy(task) && Fits(task.work, result) && (result.Built? ==> Distinct(result.offsets))
    case TaskFailed(w, task) => w < |workers| && workers[w] == Busy(task)
    case _ => true
  }

  /** No worker has two reports under way. */
  predicate MailOk(workers: seq<WorkerStatus>, mailbox: seq<Message>) {
    && (forall m | m in mailbox :: ReportOk(workers, m))
    && (forall i, j | 0 <= i < j < |mailbox| :: Reporter(mailbox[i]).Some? ==> Reporter(mailbox[i]) != Reporter(mailbox[j]))
  }

  /** A waiting queue will be dispatched: its timer is armed or has already fired. */
  predicate TimerOk(s: Sys) {
    s.server.queue != [] ==>
      && s.server.dispatchRef.Some?
      && (s.server.dispatchRef.value in s.timers || DispatchNow(s.server.dispatchRef.value) in s.mailbox)
  }

  /** A task that is queued, running, or waiting for a retry, in the mailbox or not yet there. The task
      of a report is that of a busy worker. */
  predicate UnderWay(s: Sys, t: Task) {
    HasTask(s.server, t) || t in s.retries || RetryTask(t) in s.mailbox
  }

  /** Every task under way belongs to a live bundle; it posts exactly the entries of that bundle, or builds
      the proofs of its transaction. */
  ghost predicate PayloadsOk(s: Sys) {
    forall t | UnderWay(s, t) :: TaskOk(s.server, t)
  }

  /** What was posted is completed, or in a live bundle that has its transaction, and nothing else is. */
  ghost predicate PostedKept(s: Sys) {
    forall p :: Count(s.posted, p) == InPosted(s.server, p) + Count(s.completed, p)
  }

  ghost predicate Good(s: Sys) {
    && Settled(s.server) && s.server.out == []
    && WorkMatches(s) && EntriesKept(s) && PaymentsMatch(s) && MailOk(s.server.workers, s.mailbox) && TimerOk(s)
    && PayloadsOk(s) && PostedKept(s)
  }

  //////////////////////////////////////////////////////////////////////////////
  // Payments
  //////////////////////////////////////////////////////////////////////////////

  /** Reserving for a new request creates one escrow, or changes nothing. */
  lemma UploadPayments(s: Sys, a: Action)
    requires PaymentsMatch(s) && a.Upload?
    ensures PaymentsMatch(Step(s, a))
  {
    var s' := Step(s, a);
    var (reply, ledger') := RequestReserve(s.ledger, a.item, a.quote, a.payer, a.recipient);
    if reply.Granted? {
      var entry := Entry(a.item, a.size, reply.escrow);
      forall id ensures
          && Live(s', PaidBy(id)) == One(HasStatus(s'.ledger, id, Ledger.Reserved))
          && HasStatus(s'.ledger, id, Ledger.Released) == HasStatus(s.ledger, id, Ledger.Released)
          && HasStatus(s'.ledger, id, Ledger.Refunded) == HasStatus(s.ledger, id, Ledger.Refunded)
      {
        CountSnoc(s.requests, entry, PaidBy(id));
        assert Live(s, PaidBy(id)) == One(HasStatus(s.ledger, id, Ledger.Reserved));
      }
    }
  }

  lemma CachePayments(s: Sys, i: nat)
    requires PaymentsMatch(s) && i < |s.requests|
    ensures PaymentsMatch(Step(s, CacheWritten(i)))
  {
    var s' := Step(s, CacheWritten(i));
    forall id ensures Live(s', PaidBy(id)) == Live(s, PaidBy(id)) {
      CountWithout(s.requests, i, PaidBy(id));
      CountSnoc(s.mailbox, EnqueueItem(s.requests[i]), Carries(PaidBy(id)));
    }
    forall id ensures
      && Live(s', PaidBy(id)) == One(HasStatus(s'.ledger, id, Ledger.Reserved))
      && Count(s'.completed, PaidBy(id)) == One(HasStatus(s'.ledger, id, Ledger.Released))
      && Count(s'.refunded, PaidBy(id)) == One(HasStatus(s'.ledger, id, Ledger.Refunded))
    {
      assert Live(s, PaidBy(id)) == One(HasStatus(s.ledger, id, Ledger.Reserved));
    }
  }

  lemma RefundedIsPending(s: Sys, i: nat)
    requires PaymentsMatch(s) && i < |s.requests| && s.requests[i].escrow.Paid?
    ensures Ledger.IsReserved(s.ledger, s.requests[i].escrow.id)
    ensures Live(s, PaidBy(s.requests[i].escrow.id)) == 1
  {
    var id := s.requests[i].escrow.id;
    CountPositive(s.requests, i, PaidBy(id));
    OwnedNonNegative(s.server, PaidBy(id));
    assert Live(s, PaidBy(id)) == One(HasStatus(s.ledger, id, Ledger.Reserved));
  }

  /** A failed upload is refunded: its escrow was pending. */
  lemma RefundPayments(s: Sys, i: nat)
    requires PaymentsMatch(s) && i < |s.requests|
    ensures PaymentsMatch(Step(s, CacheFailed(i)))
  {
    var (s', e) := (Step(s, CacheFailed(i)), s.requests[i]);
    if e.escrow.Paid? {
      RefundedIsPending(s, i);
    }
    forall id ensures
      && Live(s', PaidBy(id)) == One(HasStatus(s'.ledger, id, Ledger.Reserved))
      && Count(s'.completed, PaidBy(id)) == One(HasStatus(s'.ledger, id, Ledger.Released))
      && Count(s'.refunded, PaidBy(id)) == One(HasStatus(s'.ledger, id, Ledger.Refunded))
    {
      CountWithout(s.requests, i, PaidBy(id));
      CountSnoc(s.refunded, e, PaidBy(id));
      assert Live(s, PaidBy(id)) == One(HasStatus(s.ledger, id, Ledger.Reserved));
      assert Count(s.completed, PaidBy(id)) == One(HasStatus(s.ledger, id, Ledger.Released));
      assert Count(s.refunded, PaidBy(id)) == One(HasStatus(s.ledger, id, Ledger.Refunded));
    }
  }

  lemma OwnedNonNegative(s: State, p: Entry -> bool)
    ensures Owned(s, p) >= Count(s.queue, p) && Owned(s, p) >= 0
  {
    SumNonNegative(BundleCounts(s.bundles, p), Any());
  }

  function ReleaseLedger(l: Ledger.State, entries: seq<Entry>): Ledger.State
    decreases entries
  {
    if entries == [] then l else ReleaseLedger(ReleaseEscrowed(l, entries[0].escrow), entries[1..])
  }

  /** Releasing the escrows of a bundle settles each of them and no other. */
  lemma {:induction false} ReleaseSettles(l: Ledger.State, entries: seq<Entry>, id: Ledger.ReservationId)
    requires forall i | i in PaidIds(entries) :: Ledger.IsReserved(l, i)
    requires forall i :: Count(entries, PaidBy(i)) <= 1
    ensures
      var l' := ReleaseLedger(l, entries);
      && One(HasStatus(l', id, Ledger.Reserved)) == One(HasStatus(l, id, Ledger.Reserved)) - Count(entries, PaidBy(id))
      && One(HasStatus(l', id, Ledger.Released)) == One(HasStatus(l, id, Ledger.Released)) + Count(entries, PaidBy(id))
      && HasStatus(l', id, Ledger.Refunded) == HasStatus(l, id, Ledger.Refunded)
    decreases entries
  {
    if entries != [] {
      var (e, rest) := (entries[0].escrow, entries[1..]);
      var l1 := ReleaseEscrowed(l, e);
      forall i ensures Count(rest, PaidBy(i)) <= 1 {
        assert Count(entries, PaidBy(i)) <= 1;
      }
      forall i | i in PaidIds(rest) ensures Ledger.IsReserved(l1, i) {
        assert i in PaidIds(entries);
        PaidIdCounts(rest, i);
      }
      assert e.Paid? ==> e.id in PaidIds(entries);
      ReleaseSettles(l1, rest, id);
    }
  }

  function PaidIds(entries: seq<Entry>): set<Ledger.ReservationId> {
    set e | e in entries && e.escrow.Paid? :: e.escrow.id
  }

  lemma PaidIdCounts(entries: seq<Entry>, id: Ledger.ReservationId)
    requires id in PaidIds(entries)
    ensures Count(entries, PaidBy(id)) >= 1
  {
    var e :| e in entries && e.escrow.Paid? && e.escrow.id == id;
    var i :| 0 <= i < |entries| && entries[i] == e;
    CountPositive(entries, i, PaidBy(id));
  }

  //////////////////////////////////////////////////////////////////////////////
  // Effects of a turn
  //////////////////////////////////////////////////////////////////////////////

  lemma {:induction false} PerformAppend(s: Sys, a: seq<Effect>, b: seq<Effect>)
    ensures Perform(s, a + b) == Perform(Perform(s, a), b)
    decreases a
  {
    if a == [] {
      assert a + b == b;
    } else {
      assert (a + b)[1..] == a[1..] + b;
      PerformAppend(Perform(s, [a[0]]), a[1..], b);
      assert forall rest :: Perform(s, [a[0]] + rest) == Perform(Perform(s, [a[0]]), rest);
    }
  }

  lemma {:induction false} PerformSends(s: Sys, sent: seq<Effect>)
    requires forall e | e in sent :: e.Execute?
    ensures Perform(s, sent) == s
    decreases sent
  {
    if sent != [] {
      PerformSends(s, sent[1..]);
    }
  }

  lemma {:induction false} PerformReleases(s: Sys, entries: seq<Entry>)
    ensures Perform(s, ReleaseAll(entries)) == s.(ledger := ReleaseLedger(s.ledger, entries))
    decreases entries
  {
    if entries != [] {
      assert ReleaseAll(entries)[1..] == ReleaseAll(entries[1..]);
      PerformReleases(s.(ledger := ReleaseEscrowed(s.ledger, entries[0].escrow)), entries[1..]);
    }
  }

  /** What a turn leaves outside the server. */
  function TimersAfter(s: Sys, m: Message): set<nat> {
    match m
    case EnqueueItem(_) => if s.server.queue == [] then s.timers + {s.server.nextRef} else s.timers
    case DispatchNow(_) => TimersWithoutPending(s)
    case IdleTimeout => TimersWithoutPending(s)
    case _ => s.timers
  }

  function TimersWithoutPending(s: Sys): set<nat> {
    if s.server.queue != [] && s.server.dispatchRef.Some? then s.timers - {s.server.dispatchRef.value} else s.timers
  }

  function RetriesAfter(s: Sys, m: Message): seq<Task> {
    if m.TaskFailed? then s.retries + [m.failedTask.(retries := m.failedTask.retries + 1)] else s.retries
  }

  /** The state after a turn, with all its effects. */
  function TurnState(s: Sys, m: Message): Sys
    requires Sound(s.server) && Receivable(s.server, m)
  {
    s.(server := Receive(s.server, m).(out := []),
       ledger := ReleaseLedger(s.ledger, Done(s.server, m)),
       timers := TimersAfter(s, m),
       retries := RetriesAfter(s, m),
       enqueued := s.enqueued + (if m.EnqueueItem? then [m.entry] else []),
       posted := s.posted + PostedNow(m),
       completed := s.completed + Done(s.server, m))
  }

  lemma PerformReaction(s: Sys, t: Sys, m: Message)
    requires Receivable(s.server, m)
    requires t.timers == s.timers && t.retries == s.retries && t.ledger == s.ledger
    ensures
      Perform(t, Reaction(s.server, m))
      == t.(ledger := ReleaseLedger(s.ledger, Done(s.server, m)), timers := TimersAfter(s, m), retries := RetriesAfter(s, m))
  {
    if m.TaskComplete? {
      PerformReleases(t, Done(s.server, m));
    }
  }

  lemma TurnIsTurnState(s: Sys, m: Message)
    requires Settled(s.server) && s.server.out == [] && Expected(s.server, m)
    ensures Receivable(s.server, m) && Turn(s, m) == TurnState(s, m)
  {
    var sent := TurnOut(s.server, m);
    var reaction := Reaction(s.server, m);
    assert [] + reaction + sent == reaction + sent;
    var t := s.(server := Receive(s.server, m).(out := []),
                enqueued := s.enqueued + (if m.EnqueueItem? then [m.entry] else []),
                posted := s.posted + PostedNow(m),
                completed := s.completed + Done(s.server, m));
    PerformParts(s, t, m, reaction, sent);
  }

  lemma PerformParts(s: Sys, t: Sys, m: Message, reaction: seq<Effect>, sent: seq<Effect>)
    requires Receivable(s.server, m) && reaction == Reaction(s.server, m)
    requires t.timers == s.timers && t.retries == s.retries && t.ledger == s.ledger
    requires forall e | e in sent :: e.Execute?
    ensures
      Perform(t, reaction + sent)
      == t.(ledger := ReleaseLedger(s.ledger, Done(s.server, m)), timers := TimersAfter(s, m), retries := RetriesAfter(s, m))
  {
    PerformAppend(t, reaction, sent);
    PerformReaction(s, t, m);
    PerformSends(Perform(t, reaction), sent);
  }

  //////////////////////////////////////////////////////////////////////////////
  // Turns keep the invariant
  //////////////////////////////////////////////////////////////////////////////

  /** `s0` is `s` with the received message taken out of the mailbox; an idle timeout is no message. */
  ghost predicate Picks(s: Sys, s0: Sys, m: Message) {
    && s0 == s.(mailbox := s0.mailbox)
    && ((m.IdleTimeout? && s0 == s) || (exists i :: 0 <= i < |s.mailbox| && m == s.mailbox[i] && s0.mailbox == Without(s.mailbox, i)))
  }

  lemma PicksCount(s: Sys, s0: Sys, m: Message, q: Message -> bool)
    requires Picks(s, s0, m) && (m.IdleTimeout? ==> !q(m))
    ensures Count(s.mailbox, q) == Count(s0.mailbox, q) + One(q(m))
  {
    if !(m.IdleTimeout? && s0 == s) {
      var i :| 0 <= i < |s.mailbox| && m == s.mailbox[i] && s0.mailbox == Without(s.mailbox, i);
      CountWithout(s.mailbox, i, q);
    }
  }

  /** A report is about work that a bundle still waits for. */
  lemma PickedExpected(s: Sys, s0: Sys, m: Message)
    requires Good(s) && Picks(s, s0, m)
    ensures Expected(s.server, m)
  {
    if m.TaskComplete? {
      var k := KeyOf(m.task);
      assert m in s.mailbox && ReportOk(s.server.workers, m);
      CountPositive(s.server.workers, m.worker, Runs(k));
      assert Outstanding(s, k) == One(Required(s.server, k));
    } else if m.TaskFailed? {
      assert m in s.mailbox && ReportOk(s.server.workers, m);
    }
  }

  /** What waits outside the server: a received retry is gone, a failure waits for its timer. */
  lemma TurnWaiting(s: Sys, s0: Sys, m: Message, k: Key)
    requires Picks(s, s0, m)
    ensures
      Count(s0.mailbox, IsRetry(k)) + KeyCount(RetriesAfter(s0, m), k)
      == Count(s.mailbox, IsRetry(k)) + KeyCount(s.retries, k) - Shift(m, k)
  {
    PicksCount(s, s0, m, IsRetry(k));
    if m.TaskFailed? {
      CountSnoc(s.retries, m.failedTask.(retries := m.failedTask.retries + 1), IsKey(k));
    }
  }

  lemma TurnServer(s: State, m: Message, k: Key)
    requires Settled(s) && Expected(s, m) && Receivable(s, m)
    ensures
      var s' := Receive(s, m).(out := []);
      WorkCount(s', k) - WorkCount(s, k) == One(Required(s', k)) - One(Required(s, k)) + Shift(m, k)
  {
    TurnKeeps(s, m, k, _ => true);
  }

  lemma TurnWork(s: Sys, s0: Sys, m: Message)
    requires Good(s) && Picks(s, s0, m) && Expected(s.server, m) && Receivable(s.server, m)
    ensures WorkMatches(TurnState(s0, m))
  {
    var t := TurnState(s0, m);
    forall k ensures Outstanding(t, k) == One(Required(t.server, k)) {
      TurnServer(s.server, m, k);
      TurnWaiting(s, s0, m, k);
      assert Outstanding(s, k) == One(Required(s.server, k));
    }
  }

  lemma TurnEntries(s: Sys, s0: Sys, m: Message)
    requires Good(s) && Picks(s, s0, m) && Expected(s.server, m) && Receivable(s.server, m)
    ensures EntriesKept(TurnState(s0, m))
  {
    var t := TurnState(s0, m);
    forall p ensures Count(t.enqueued, p) == Owned(t.server, p) + Count(t.completed, p) {
      TurnKeeps(s.server, m, Key(0, PostPart), p);
      CountAppend(s.completed, Done(s.server, m), p);
      assert Count(s.enqueued, p) == Owned(s.server, p) + Count(s.completed, p);
      if m.EnqueueItem? {
        CountSnoc(s.enqueued, m.entry, p);
      } else {
        assert s.enqueued + [] == s.enqueued;
      }
    }
  }

  /** The entries a turn completes are paid by reservations that are still in escrow, one each. */
  lemma DoneArePending(s: Sys, m: Message)
    requires Good(s) && Expected(s.server, m) && Receivable(s.server, m)
    ensures forall id :: Count(Done(s.server, m), PaidBy(id)) <= 1
    ensures forall id | id in PaidIds(Done(s.server, m)) :: Ledger.IsReserved(s.ledger, id)
  {
    var done := Done(s.server, m);
    forall id ensures Count(done, PaidBy(id)) <= One(HasStatus(s.ledger, id, Ledger.Reserved)) {
      DoneOwned(s.server, m, PaidBy(id));
      assert Live(s, PaidBy(id)) == One(HasStatus(s.ledger, id, Ledger.Reserved));
    }
    forall id | id in PaidIds(done) ensures Ledger.IsReserved(s.ledger, id) {
      PaidIdCounts(done, id);
    }
  }

  lemma DoneOwned(s: State, m: Message, p: Entry -> bool)
    requires Settled(s) && Expected(s, m) && Receivable(s, m)
    ensures Count(Done(s, m), p) <= Owned(s, p)
  {
    TurnKeeps(s, m, Key(0, PostPart), p);
    OwnedNonNegative(Receive(s, m), p);
    OwnedNonNegative(s, p);
  }

  ghost predicate PaymentMatches(s: Sys, id: Ledger.ReservationId) {
    && Live(s, PaidBy(id)) == One(HasStatus(s.ledger, id, Ledger.Reserved))
    && Count(s.completed, PaidBy(id)) == One(HasStatus(s.ledger, id, Ledger.Released))
    && Count(s.refunded, PaidBy(id)) == One(HasStatus(s.ledger, id, Ledger.Refunded))
  }

  /** The live entries after a turn are those before it without the completed ones. */
  lemma TurnLive(s: Sys, s0: Sys, m: Message, p: Entry -> bool)
    requires Good(s) && Picks(s, s0, m) && Expected(s.server, m) && Receivable(s.server, m)
    ensures Live(TurnState(s0, m), p) == Live(s, p) - Count(Done(s.server, m), p)
  {
    TurnKeeps(s.server, m, Key(0, PostPart), p);
    PicksCount(s, s0, m, Carries(p));
  }

  lemma TurnPayment(s: Sys, s0: Sys, m: Message, id: Ledger.ReservationId)
    requires Good(s) && Picks(s, s0, m) && Expected(s.server, m) && Receivable(s.server, m)
    requires PaymentMatches(s, id)
    ensures PaymentMatches(TurnState(s0, m), id)
  {
    var done := Done(s.server, m);
    DoneArePending(s, m);
    TurnLive(s, s0, m, PaidBy(id));
    CountAppend(s.completed, done, PaidBy(id));
    ReleaseSettles(s.ledger, done, id);
  }

  lemma TurnPayments(s: Sys, s0: Sys, m: Message)
    requires Good(s) && Picks(s, s0, m) && Expected(s.server, m) && Receivable(s.server, m)
    ensures PaymentsMatch(TurnState(s0, m))
  {
    var t := TurnState(s0, m);
    forall id ensures
      && Live(t, PaidBy(id)) == One(HasStatus(t.ledger, id, Ledger.Reserved))
      && Count(t.completed, PaidBy(id)) == One(HasStatus(t.ledger, id, Ledger.Released))
      && Count(t.refunded, PaidBy(id)) == One(HasStatus(t.ledger, id, Ledger.Refunded))
    {
      assert Live(s, PaidBy(id)) == One(HasStatus(s.ledger, id, Ledger.Reserved));
      TurnPayment(s, s0, m, id);
    }
  }

  /** Workers that were busy stay so with the same task, except the one that reported. */
  lemma WorkersAfter(s: State, m: Message, w: nat)
    requires Settled(s) && Expected(s, m) && Receivable(s, m)
    requires w < |s.workers| && s.workers[w].Busy? && Reporter(m) != Some(w)
    ensures w < |Receive(s, m).workers| && Receive(s, m).workers[w] == s.workers[w]
  {
    ReactWorkers(s, m, w);
    AssignKeeps(React(s, m), 0);
  }

  lemma ReactWorkers(s: State, m: Message, w: nat)
    requires Settled(s) && Receivable(s, m)
    requires w < |s.workers| && Reporter(m) != Some(w)
    ensures |React(s, m).workers| == |s.workers| && React(s, m).workers[w] == s.workers[w]
  {
    if m.EnqueueItem? {
      DispatchWhileFullKeeps(AddEntry(s, m.entry), Key(0, PostPart), _ => true);
    }
  }

  lemma TurnMail(s: Sys, s0: Sys, m: Message)
    requires Good(s) && Picks(s, s0, m) && Expected(s.server, m) && Receivable(s.server, m)
    ensures MailOk(TurnState(s0, m).server.workers, s0.mailbox)
  {
    var workers' := Receive(s.server, m).workers;
    if m.IdleTimeout? && s0 == s {
      forall x | x in s0.mailbox ensures ReportOk(workers', x) {
        ReportStays(s, m, x);
      }
    } else {
      var i :| 0 <= i < |s.mailbox| && m == s.mailbox[i] && s0.mailbox == Without(s.mailbox, i);
      forall j | 0 <= j < |s.mailbox| && j != i ensures ReportOk(workers', s.mailbox[j]) {
        ReportStays(s, m, s.mailbox[j]);
      }
      MailWithout(s.server.workers, workers', s.mailbox, i);
    }
  }

  lemma MailWithout(workers: seq<WorkerStatus>, workers': seq<WorkerStatus>, mailbox: seq<Message>, i: nat)
    requires i < |mailbox| && MailOk(workers, mailbox)
    requires forall j | 0 <= j < |mailbox| && j != i :: ReportOk(workers', mailbox[j])
    ensures MailOk(workers', Without(mailbox, i))
  {
    var rest := Without(mailbox, i);
    forall j | 0 <= j < |rest| ensures ReportOk(workers', rest[j]) {
      assert rest[j] == mailbox[if j < i then j else j + 1];
    }
  }

  lemma ReportStays(s: Sys, m: Message, x: Message)
    requires Good(s) && Expected(s.server, m) && Receivable(s.server, m) && x in s.mailbox
    requires Reporter(x).Some? ==> Reporter(x) != Reporter(m)
    ensures ReportOk(Receive(s.server, m).workers, x)
  {
    assert ReportOk(s.server.workers, x);
    if Reporter(x).Some? {
      WorkersAfter(s.server, m, Reporter(x).value);
    }
  }

  lemma TurnTimer(s: Sys, s0: Sys, m: Message)
    requires Good(s) && Picks(s, s0, m) && Expected(s.server, m) && Receivable(s.server, m)
    ensures TimerOk(TurnState(s0, m))
  {
    QueueAfter(s.server, m);
  }

  /** The queue and its timer after a turn. */
  lemma QueueAfter(s: State, m: Message)
    requires Settled(s) && Expected(s, m) && Receivable(s, m)
    ensures
      var s' := Receive(s, m);
      match m
      case EnqueueItem(_) => s'.dispatchRef == if s.queue == [] then Some(s.nextRef) else s.dispatchRef
      case DispatchNow(_) => s'.queue == []
      case IdleTimeout => s'.queue == []
      case _ => s'.queue == s.queue && s'.dispatchRef == s.dispatchRef
  {
    AssignKeeps(React(s, m), 0);
    if m.EnqueueItem? {
      DispatchWhileFullKeeps(AddEntry(s, m.entry), Key(0, PostPart), _ => true);
    } else if m.DispatchNow? || m.IdleTimeout? {
      DispatchAllKeeps(s, Key(0, PostPart), _ => true);
    }
  }

  /** Outstanding work is work of a live bundle. */
  lemma UnderWayIsLive(s: Sys, t: Task)
    requires WorkMatches(s) && UnderWay(s, t)
    ensures t.bundle in s.server.bundles
  {
    var k := KeyOf(t);
    if t in s.server.taskQueue {
      var i :| 0 <= i < |s.server.taskQueue| && s.server.taskQueue[i] == t;
      CountPositive(s.server.taskQueue, i, IsKey(k));
    } else if Busy(t) in s.server.workers {
      var i :| 0 <= i < |s.server.workers| && s.server.workers[i] == Busy(t);
      CountPositive(s.server.workers, i, Runs(k));
    } else if t in s.retries {
      var i :| 0 <= i < |s.retries| && s.retries[i] == t;
      CountPositive(s.retries, i, IsKey(k));
    } else {
      var i :| 0 <= i < |s.mailbox| && s.mailbox[i] == RetryTask(t);
      CountPositive(s.mailbox, i, IsRetry(k));
    }
    assert Outstanding(s, k) == One(Required(s.server, k));
  }

  /** Where a task that is under way after a turn comes from. */
  lemma UnderWayBefore(s: Sys, s0: Sys, m: Message, t: Task) returns (before: Task)
    requires Good(s) && Picks(s, s0, m) && Expected(s.server, m) && Receivable(s.server, m)
    requires UnderWay(TurnState(s0, m), t)
    ensures TaskOk(TurnState(s0, m).server, t) || (UnderWay(s, before) && t == before.(retries := t.retries))
  {
    before := t;
    TurnTasks(s.server, m);
    var server' := Receive(s.server, m);
    if HasTask(server', t) {
      if m == RetryTask(t) {
        assert RetryTask(t) in s.mailbox;
      } else if TaskOk(server', t) {
        assert TaskOk(TurnState(s0, m).server, t);
      }
    } else if t in s0.retries {
    } else if m.TaskFailed? && t == m.failedTask.(retries := m.failedTask.retries + 1) {
      before := m.failedTask;
      assert ReportOk(s.server.workers, m);
    } else {
      assert RetryTask(t) in s.mailbox;
    }
  }

  lemma TurnPayloads(s: Sys, s0: Sys, m: Message)
    requires Good(s) && Picks(s, s0, m) && Expected(s.server, m) && Receivable(s.server, m)
    requires WorkMatches(TurnState(s0, m))
    ensures PayloadsOk(TurnState(s0, m))
  {
    var t' := TurnState(s0, m);
    TurnTasks(s.server, m);
    forall t | UnderWay(t', t) ensures TaskOk(t'.server, t) {
      var before := UnderWayBefore(s, s0, m, t);
      UnderWayIsLive(t', t);
      if !TaskOk(t'.server, t) {
        assert TaskOk(s.server, before);
      }
    }
  }

  lemma TurnPostedKept(s: Sys, s0: Sys, m: Message)
    requires Good(s) && Picks(s, s0, m) && Expected(s.server, m) && Receivable(s.server, m)
    ensures PostedKept(TurnState(s0, m))
  {
    var t := TurnState(s0, m);
    if m.TaskComplete? {
      assert UnderWay(s, m.task);
    }
    forall p ensures Count(t.posted, p) == InPosted(t.server, p) + Count(t.completed, p) {
      TurnPosted(s.server, m, p);
      CountAppend(s.posted, PostedNow(m), p);
      CountAppend(s.completed, Done(s.server, m), p);
      assert Count(s.posted, p) == InPosted(s.server, p) + Count(s.completed, p);
    }
  }

  lemma TurnGood(s: Sys, s0: Sys, m: Message)
    requires Good(s) && Picks(s, s0, m)
    ensures Sound(s0.server) && Receivable(s0.server, m) && Good(Turn(s0, m))
  {
    PickedExpected(s, s0, m);
    TurnIsTurnState(s0, m);
    TurnKeeps(s.server, m, Key(0, PostPart), _ => true);
    TurnWork(s, s0, m);
    TurnEntries(s, s0, m);
    TurnPayments(s, s0, m);
    TurnMail(s, s0, m);
    TurnTimer(s, s0, m);
    TurnPayloads(s, s0, m);
    TurnPostedKept(s, s0, m);
  }

  //////////////////////////////////////////////////////////////////////////////
  // The other steps
  //////////////////////////////////////////////////////////////////////////////

  lemma SameEntries(s: Sys, s': Sys)
    requires EntriesKept(s) && PostedKept(s) && s'.server == s.server
    requires s'.enqueued == s.enqueued && s'.posted == s.posted && s'.completed == s.completed
    ensures EntriesKept(s') && PostedKept(s')
  {
    forall p ensures Count(s'.enqueued, p) == Owned(s'.server, p) + Count(s'.completed, p) {
      assert Count(s.enqueued, p) == Owned(s.server, p) + Count(s.completed, p);
    }
    forall p ensures Count(s'.posted, p) == InPosted(s'.server, p) + Count(s'.completed, p) {
      assert Count(s.posted, p) == InPosted(s.server, p) + Count(s.completed, p);
    }
  }

  /** Tasks move between timers and mailbox only. */
  lemma SamePayloads(s: Sys, s': Sys)
    requires PayloadsOk(s) && s'.server == s.server
    requires forall t | UnderWay(s', t) :: UnderWay(s, t)
    ensures PayloadsOk(s')
  {
  }

  /** Steps that only touch requests and the ledger keep the rest. */
  lemma RequestGood(s: Sys, a: Action)
    requires Good(s) && Enabled(s, a) && (a.Upload? || a.CacheFailed? || a.Charge?)
    ensures Good(Step(s, a))
  {
    var s' := Step(s, a);
    match a
    case Upload(_, _, _, _, _) => UploadPayments(s, a);
    case CacheFailed(i) => RefundPayments(s, i);
    case Charge(_, _, _) => 
    forall k ensures Outstanding(s', k) == One(Required(s'.server, k)) {
      assert Outstanding(s, k) == One(Required(s.server, k));
    }
    SameEntries(s, s');
    SamePayloads(s, s');
  }

  predicate IsPost(a: Action) {
    a.CacheWritten? || a.Report? || a.Fail? || a.DispatchTimer? || a.RetryTimer?
  }

  /** The message that a step puts into the mailbox. */
  function PostedBy(s: Sys, a: Action): Message
    requires IsPost(a) && Enabled(s, a)
  {
    match a
    case CacheWritten(i) => EnqueueItem(s.requests[i])
    case Report(w, result) => TaskComplete(w, s.server.workers[w].task, result)
    case Fail(w) => TaskFailed(w, s.server.workers[w].task)
    case DispatchTimer(t) => DispatchNow(t)
    case RetryTimer(i) => RetryTask(s.retries[i])
  }

  lemma PostWork(s: Sys, a: Action)
    requires Good(s) && IsPost(a) && Enabled(s, a)
    ensures WorkMatches(Step(s, a))
  {
    var (s', m) := (Step(s, a), PostedBy(s, a));
    forall k ensures Outstanding(s', k) == One(Required(s'.server, k)) {
      CountSnoc(s.mailbox, m, IsRetry(k));
      if a.RetryTimer? {
        CountWithout(s.retries, a.r, IsKey(k));
      }
      assert Outstanding(s, k) == One(Required(s.server, k));
    }
  }

  lemma PostGood(s: Sys, a: Action)
    requires Good(s) && IsPost(a) && Enabled(s, a)
    ensures Good(Step(s, a))
  {
    var (s', m) := (Step(s, a), PostedBy(s, a));
    PostPayments(s, a);
    PostWork(s, a);
    SameEntries(s, s');
    SamePayloads(s, s');
    assert m in s'.mailbox;
    assert forall x | x in s.mailbox :: x in s'.mailbox;
  }

  lemma PostPayments(s: Sys, a: Action)
    requires Good(s) && IsPost(a) && Enabled(s, a)
    ensures PaymentsMatch(Step(s, a))
  {
    var (s', m) := (Step(s, a), PostedBy(s, a));
    if a.CacheWritten? {
      CachePayments(s, a.i);
    } else {
      forall id ensures
        && Live(s', PaidBy(id)) == One(HasStatus(s'.ledger, id, Ledger.Reserved))
        && Count(s'.completed, PaidBy(id)) == One(HasStatus(s'.ledger, id, Ledger.Released))
        && Count(s'.refunded, PaidBy(id)) == One(HasStatus(s'.ledger, id, Ledger.Refunded))
      {
        CountSnoc(s.mailbox, m, Carries(PaidBy(id)));
        assert Live(s, PaidBy(id)) == One(HasStatus(s.ledger, id, Ledger.Reserved));
      }
    }
  }

  //////////////////////////////////////////////////////////////////////////////
  // Runs
  //////////////////////////////////////////////////////////////////////////////

  /** No enabled step crashes the server, and every step keeps the invariant. */
  lemma StepGood(s: Sys, a: Action)
    requires Good(s) && Enabled(s, a)
    ensures Survives(s, a) && Good(Step(s, a))
  {
    match a
    case Upload(_, _, _, _, _) => RequestGood(s, a);
    case CacheFailed(_) => RequestGood(s, a);
    case Charge(_, _, _) => RequestGood(s, a);
    case Deliver(i) => TurnGood(s, s.(mailbox := Without(s.mailbox, i)), s.mailbox[i]);
    case Idle => TurnGood(s, s, IdleTimeout);
    case _ => PostGood(s, a);
  }

  lemma InitialGood(maxSize: nat, maxItems: nat, numWorkers: nat, balances: map<Ledger.Account, int>)
    requires maxSize > 0 && maxItems > 0
    ensures Good(Initial(maxSize, maxItems, numWorkers, balances))
  {
    var s := Initial(maxSize, maxItems, numWorkers, balances);
    forall k ensures Outstanding(s, k) == 0 {
      IdleCount(numWorkers, k);
    }
    assert forall p :: BundleCounts(s.server.bundles, p) == map[];
    assert forall p :: PostedCounts(s.server.bundles, p) == map[];
  }

  lemma {:induction false} IdleCount(n: nat, k: Key)
    ensures Count(seq(n, _ => WorkerStatus.Idle), Runs(k)) == 0
  {
    if n > 0 {
      assert seq(n, _ => WorkerStatus.Idle)[1..] == seq(n - 1, _ => WorkerStatus.Idle);
      IdleCount(n - 1, k);
    }
  }

  /** A run from the start, as long as the server has not crashed. */
  ghost predicate IsRun(states: seq<Sys>, actions: seq<Action>) {
    && |states| == |actions| + 1
    && (exists size: nat, items: nat, workers: nat, balances ::
          size > 0 && items > 0 && states[0] == Initial(size, items, workers, balances))
    && (forall i | 0 <= i < |actions| :: Enabled(states[i], actions[i]))
    && (forall i | 0 <= i < |actions| && Survives(states[i], actions[i]) :: states[i + 1] == Step(states[i], actions[i]))
  }

  /** In every run, no message crashes the server, and every state keeps the invariant: the queue is
      within its limits and its dispatch is scheduled, every entry is in exactly one place, every
      live bundle waits for exactly the work that is under way, and every payment is pending,
      released or refunded, exactly as its item is live, completed or failed. */
  lemma {:induction false} EveryRunIsGood(states: seq<Sys>, actions: seq<Action>, i: nat)
    requires IsRun(states, actions) && i <= |actions|
    ensures Good(states[i])
    ensures i < |actions| ==> Survives(states[i], actions[i])
    decreases i
  {
    if i == 0 {
      var size: nat, items: nat, workers: nat, balances :|
        size > 0 && items > 0 && states[0] == Initial(size, items, workers, balances);
      InitialGood(size, items, workers, balances);
    } else {
      EveryRunIsGood(states, actions, i - 1);
      StepGood(states[i - 1], actions[i - 1]);
    }
    if i < |actions| {
      StepGood(states[i], actions[i]);
    }
  }

  //////////////////////////////////////////////////////////////////////////////
  // What the invariant says
  //////////////////////////////////////////////////////////////////////////////

  /** No live bundle is stuck: some of its work is queued, running, or waiting for a retry. */
  lemma LiveBundleHasWork(s: Sys, id: nat) returns (k: Key)
    requires Good(s) && id in s.server.bundles
    ensures k.bundle == id && Outstanding(s, k) == 1
  {
    var b := s.server.bundles[id];
    assert BundleOk(s.server, id, b);
    match b.phase {
      case Initializing => k := Key(id, PostPart);
      case TxPosted => k := Key(id, BuildPart);
      case ProofsBuilt =>
        var o :| o in b.proofs && !b.proofs[o].Seeded?;
        k := Key(id, ProofPart(o));
    }
    assert Outstanding(s, k) == One(Required(s.server, k));
  }

  /** A paid entry is in one place only, and its reservation is in the matching state. */
  lemma PaidOnce(s: Sys, id: Ledger.ReservationId)
    requires Good(s)
    ensures Live(s, PaidBy(id)) + Count(s.completed, PaidBy(id)) + Count(s.refunded, PaidBy(id)) == One(id in s.ledger.reservations)
    ensures Ledger.IsReserved(s.ledger, id) <==> Live(s, PaidBy(id)) == 1
  {
    assert Live(s, PaidBy(id)) == One(HasStatus(s.ledger, id, Ledger.Reserved));
    assert Count(s.completed, PaidBy(id)) == One(HasStatus(s.ledger, id, Ledger.Released));
    assert Count(s.refunded, PaidBy(id)) == One(HasStatus(s.ledger, id, Ledger.Refunded));
  }

  /** A second upload of a paid item is denied for good: its reservation ID is taken. */
  lemma PaidItemIsNotPaidAgain(s: Sys, item: ItemId, size: nat, amount: nat, payer: Option<Ledger.Account>, recipient: Ledger.Account)
    requires ReservationIdOf(item) in s.ledger.reservations && amount > 0
    ensures Step(s, Upload(item, size, Price(amount), payer, recipient)) == s
  {
  }

  /** The ledger before and after: no money is made or lost, and reservations only settle. */
  ghost predicate LedgerMoves(l: Ledger.State, l': Ledger.State) {
    Ledger.Total(l') == Ledger.Total(l) && Ledger.AllEvolve(l, l')
  }

  lemma {:induction false} ReleaseLedgerMoves(l: Ledger.State, entries: seq<Entry>)
    ensures LedgerMoves(l, ReleaseLedger(l, entries))
    decreases entries
  {
    if entries != [] {
      var e := entries[0].escrow;
      if e.Paid? {
        ActionMoves(l, Ledger.Release(e.id, Some(e.recipient)));
      }
      ReleaseLedgerMoves(ReleaseEscrowed(l, e), entries[1..]);
    }
  }

  lemma ActionMoves(l: Ledger.State, action: Ledger.Action)
    ensures LedgerMoves(l, Ledger.Apply(l, action))
  {
    Ledger.ApplyConserves(l, action);
    Ledger.RunEvolves(l, [action]);
    assert [action][1..] == [];
    assert Ledger.Run(l, [action]) == Ledger.Run(Ledger.Apply(l, action), []);
  }

  lemma TurnLedger(s: Sys, s0: Sys, m: Message)
    requires Good(s) && Picks(s, s0, m) && Sound(s0.server) && Receivable(s0.server, m)
    ensures LedgerMoves(s.ledger, Turn(s0, m).ledger)
  {
    PickedExpected(s, s0, m);
    TurnIsTurnState(s0, m);
    ReleaseLedgerMoves(s.ledger, Done(s.server, m));
  }

  lemma StepLedger(s: Sys, a: Action)
    requires Good(s) && Enabled(s, a) && Survives(s, a)
    ensures LedgerMoves(s.ledger, Step(s, a).ledger)
  {
    match a
    case Upload(item, _, quote, payer, recipient) =>
      if quote.Price? && quote.amount > 0 && payer.Some? {
        ActionMoves(s.ledger, ReserveAction(item, quote.amount, payer.value, recipient));
      }
    case CacheFailed(i) =>
      if s.requests[i].escrow.Paid? {
        ActionMoves(s.ledger, Ledger.Refund(s.requests[i].escrow.id));
      }
    case Charge(account, to, quantity) => ActionMoves(s.ledger, Ledger.Charge(account, to, quantity));
    case Deliver(i) => TurnLedger(s, s.(mailbox := Without(s.mailbox, i)), s.mailbox[i]);
    case Idle => TurnLedger(s, s, IdleTimeout);
    case _ =>
  }

  /** Once a payment for an item has been reserved, every later priced upload of the item in the run is
      denied and changes nothing. */
  lemma PaidForGood(states: seq<Sys>, actions: seq<Action>, i: nat, j: nat)
    requires IsRun(states, actions) && i <= j < |actions|
    requires actions[j].Upload? && actions[j].quote.Price? && actions[j].quote.amount > 0
    requires ReservationIdOf(actions[j].item) in states[i].ledger.reservations
    ensures states[j + 1] == states[j]
  {
    RunLedger(states, actions, i, j);
    var a := actions[j];
    assert Survives(states[j], a);
    PaidItemIsNotPaidAgain(states[j], a.item, a.size, a.quote.amount, a.payer, a.recipient);
  }

  /** Over every run the money in the ledger is constant, and once a payment has been released or
      refunded it stays so. */
  lemma RunLedger(states: seq<Sys>, actions: seq<Action>, i: nat, j: nat)
    requires IsRun(states, actions) && i <= j <= |actions|
    ensures LedgerMoves(states[i].ledger, states[j].ledger)
  {
    var k := i;
    while k < j
      invariant i <= k <= j && LedgerMoves(states[i].ledger, states[k].ledger)
    {
      EveryRunIsGood(states, actions, k);
      StepLedger(states[k], actions[k]);
      MovesOn(states[i].ledger, states[k].ledger, states[k + 1].ledger);
      k := k + 1;
    }
  }

  lemma MovesOn(l: Ledger.State, l': Ledger.State, l'': Ledger.State)
    requires LedgerMoves(l, l') && LedgerMoves(l', l'')
    ensures LedgerMoves(l, l'')
  {
  }
}

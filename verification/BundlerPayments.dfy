/** Who pays for a bundled item, who is paid for it, and when (src/dev_bundler.erl:39-104 and 560-600,
    src/dev_bundler_escrow.erl). */
module BundlerPayments {
  import opened Options
  import opened MapSum
  import opened Counting
  import opened Bundler
  import opened BundlerInvariants
  import opened BundlerPayloads
  import opened BundlerSystem
  import Ledger

  /** An upload is accepted without payment if there is no pricing or the price is zero. Otherwise it needs
      a quote, a single signer who has the price, and an item that was never paid for; then the price
      is taken from the signer and kept for the recipient under the ID of the item with "-bundler"
      appended. */
  lemma UploadExactly(
    s: Sys, item: ItemId, size: nat, quote: Quote, payer: Option<Ledger.Account>, recipient: Ledger.Account,
    other: Ledger.Account
  )
    ensures
      var (s', id) := (Step(s, Upload(item, size, quote, payer, recipient)), item + "-bundler");
      if quote.NoProcessor? || quote == Price(0) then s' == s.(requests := s.requests + [Entry(item, size, NoEscrow)])
      else if || quote.QuoteFailed? || payer.None? || id in s.ledger.reservations
              || Ledger.Balance(s.ledger, payer.value) < quote.amount
      then s' == s
      else
        var reserved := Ledger.Reservation(Ledger.Reserved, payer.value, recipient, quote.amount);
        && s' == s.(requests := s.requests + [Entry(item, size, Paid(id, recipient))], ledger := s'.ledger)
        && s'.ledger.reservations == s.ledger.reservations[id := reserved]
        && Ledger.Balance(s'.ledger, other) == Ledger.Balance(s.ledger, other) - Ledger.Share(payer.value, quote.amount, other)
  {
  }

  /** An upload that cannot be cached gives its price back to the signer. */
  lemma FailedUploadIsRefunded(s: Sys, j: nat, other: Ledger.Account)
    requires Good(s) && j < |s.requests|
    ensures
      var (e, s') := (s.requests[j].escrow, Step(s, CacheFailed(j)));
      match e
      case NoEscrow => s'.ledger == s.ledger
      case Paid(id, _) =>
        && Ledger.IsReserved(s.ledger, id)
        && var r := s.ledger.reservations[id];
           && s'.ledger.reservations == s.ledger.reservations[id := r.(status := Ledger.Refunded)]
           && Ledger.Balance(s'.ledger, other) == Ledger.Balance(s.ledger, other) + Ledger.Share(r.account, r.quantity, other)
  {
    if s.requests[j].escrow.Paid? {
      RefundedIsPending(s, j);
    }
  }

  /** What the recipient `other` gets for these entries. */
  function PaidTo(l: Ledger.State, entries: seq<Entry>, other: Ledger.Account): int
    requires forall id | id in PaidIds(entries) :: id in l.reservations
  {
    if entries == [] then 0
    else
      var (e, rest) := (entries[0].escrow, entries[1..]);
      assert e.Paid? ==> e.id in PaidIds(entries);
      (if e.Paid? && e.recipient == other then l.reservations[e.id].quantity else 0) + PaidTo(l, rest, other)
  }

  lemma {:induction false} PaidToOthers(l: Ledger.State, l': Ledger.State, entries: seq<Entry>, other: Ledger.Account)
    requires forall id | id in PaidIds(entries) :: id in l.reservations && id in l'.reservations
    requires forall id | id in PaidIds(entries) :: l'.reservations[id] == l.reservations[id]
    ensures PaidTo(l', entries, other) == PaidTo(l, entries, other)
  {
    if entries != [] {
      assert entries[0].escrow.Paid? ==> entries[0].escrow.id in PaidIds(entries);
      PaidToOthers(l, l', entries[1..], other);
    }
  }

  /** Releasing the escrows of entries pays each its quantity to the recipient named by the entry. */
  lemma {:induction false} ReleasePays(l: Ledger.State, entries: seq<Entry>, other: Ledger.Account)
    requires forall id | id in PaidIds(entries) :: id in l.reservations && l.reservations[id].status == Ledger.Reserved
    requires forall id :: Count(entries, PaidBy(id)) <= 1
    ensures Ledger.Balance(ReleaseLedger(l, entries), other) == Ledger.Balance(l, other) + PaidTo(l, entries, other)
    decreases entries
  {
    if entries != [] {
      var (e, rest) := (entries[0].escrow, entries[1..]);
      var l1 := ReleaseEscrowed(l, e);
      forall id ensures Count(rest, PaidBy(id)) <= 1 {
        assert Count(entries, PaidBy(id)) <= 1;
      }
      forall id | id in PaidIds(rest)
        ensures id in l.reservations && id in l1.reservations && l1.reservations[id] == l.reservations[id]
      {
        assert id in PaidIds(entries);
        PaidIdCounts(rest, id);
      }
      assert e.Paid? ==> e.id in PaidIds(entries);
      ReleasePays(l1, rest, other);
      PaidToOthers(l, l1, rest, other);
    }
  }

  /** A message pays exactly the recipients of the entries that it completes. */
  lemma CompletionPays(s: Sys, i: nat, other: Ledger.Account)
    requires Good(s) && i < |s.mailbox|
    ensures Survives(s, Deliver(i)) && forall id | id in PaidIds(Done(s.server, s.mailbox[i])) :: id in s.ledger.reservations
    ensures
      Ledger.Balance(Step(s, Deliver(i)).ledger, other)
      == Ledger.Balance(s.ledger, other) + PaidTo(s.ledger, Done(s.server, s.mailbox[i]), other)
  {
    var (s0, m) := (s.(mailbox := Without(s.mailbox, i)), s.mailbox[i]);
    assert Picks(s, s0, m);
    PickedExpected(s, s0, m);
    TurnIsTurnState(s0, m);
    DoneArePending(s, m);
    ReleasePays(s.ledger, Done(s.server, m), other);
  }

  /** Which bundles a message removes, and the entries it completes. */
  lemma ReactBundles(s: State, m: Message)
    requires Settled(s) && Expected(s, m) && Receivable(s, m)
    ensures
      var s' := React(s, m);
      if m.TaskComplete? && m.task.bundle !in s'.bundles then
        Done(s, m) == s.bundles[m.task.bundle].entries && s'.bundles == s.bundles - {m.task.bundle}
      else
        Done(s, m) == [] && forall id | id in s.bundles :: id in s'.bundles
  {
    match m {
      case EnqueueItem(entry) => DispatchWhileFullAdds(AddEntry(s, entry));
      case DispatchNow(_) => DispatchAllAdds(s);
      case IdleTimeout => DispatchAllAdds(s);
      case TaskComplete(w, task, result) => CompletedBundles(Freed(s, w), task, result);
      case TaskFailed(_, _) =>
      case RetryTask(_) =>
    }
  }

  lemma CompletedBundles(s: State, task: Task, result: Result)
    requires BundlesOk(s) && Required(s, KeyOf(task)) && Processable(s, task, result)
    ensures
      var (s', done) := (Completed(s, s.bundles[task.bundle], task, result), DoneEntries(s, task, result));
      if task.bundle in s'.bundles then done == [] && s'.bundles.Keys == s.bundles.Keys
      else done == s.bundles[task.bundle].entries && s'.bundles == s.bundles - {task.bundle}
  {
    assert BundleOk(s, task.bundle, s.bundles[task.bundle]);
  }

  /** What completes is a whole live bundle, when its last proof is posted or when it has none. */
  lemma CompletesWhole(s: Sys, i: nat)
    requires Good(s) && i < |s.mailbox|
    ensures Survives(s, Deliver(i))
    ensures
      var (m, s') := (s.mailbox[i], Step(s, Deliver(i)));
      if m.TaskComplete? && m.task.bundle !in s'.server.bundles then
        && m.task.bundle in s.server.bundles && s'.server.bundles == s.server.bundles - {m.task.bundle}
        && s'.completed == s.completed + s.server.bundles[m.task.bundle].entries
      else
        s'.completed == s.completed && forall id | id in s.server.bundles :: id in s'.server.bundles
  {
    var (s0, m) := (s.(mailbox := Without(s.mailbox, i)), s.mailbox[i]);
    assert Picks(s, s0, m);
    PickedExpected(s, s0, m);
    TurnIsTurnState(s0, m);
    ReactBundles(s.server, m);
    AssignKeeps(React(s.server, m), 0);
  }

  /** Nothing is completed that was not posted, or posted that was not taken in. */
  lemma CompletedWasPosted(s: Sys, p: Entry -> bool)
    requires Good(s)
    ensures Count(s.completed, p) <= Count(s.posted, p) <= Count(s.enqueued, p)
  {
    var bundles := s.server.bundles;
    assert Count(s.posted, p) == InPosted(s.server, p) + Count(s.completed, p);
    assert Count(s.enqueued, p) == Owned(s.server, p) + Count(s.completed, p);
    PostedAtMostHeld(bundles, p);
  }

  lemma PostedAtMostHeld(bundles: map<nat, Bundle>, p: Entry -> bool)
    ensures 0 <= Sum(PostedCounts(bundles, p)) <= Sum(BundleCounts(bundles, p))
  {
    SumNonNegative(PostedCounts(bundles, p), Any());
    SumAtMost(PostedCounts(bundles, p), BundleCounts(bundles, p), Any());
  }
}

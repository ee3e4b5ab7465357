/** What single steps of the token network do to every account, and what becomes of a transfer on its
    whole way (scripts/hyper-token.lua:402-430 and 620-830). */
module TokenEffects {
  import opened Options
  import opened MapSum
  import opened HyperToken
  import opened TokenNetwork

  /** Every account with a balance changes by what is taken from one account and given to another. */
  ghost predicate Moves(b: map<Id, int>, b': map<Id, int>, from: Option<Id>, to: Option<Id>, quantity: int) {
    forall a ::
      At(b', a) == At(b, a) - (if from == Some(a) then quantity else 0) + (if to == Some(a) then quantity else 0)
  }

  /** Ledgers have the same accounts and know the same peers. */
  predicate SameBooks(p: Proc, p': Proc) {
    p'.balance == p.balance && p'.ledgers == p.ledgers && p'.token == p.token
  }

  /** Only the books of `ledger` may differ. */
  predicate OnlyAt(n: Net, n': Net, ledger: Id) {
    && SameLedgers(n, n')
    && (ledger != n.rootId ==> SameBooks(n.root, n'.root))
    && forall l | l in n.subs && l != ledger :: SameBooks(n.subs[l], n'.subs[l])
  }

  predicate Unchanged(n: Net, n': Net) {
    SameLedgers(n, n') && SameBooks(n.root, n'.root) && forall l | l in n.subs :: SameBooks(n.subs[l], n'.subs[l])
  }

  //////////////////////////////////////////////////////////////////////////////
  // Notices
  //////////////////////////////////////////////////////////////////////////////

  /** A notice that arrives at a sub-ledger from the root, from a remembered peer or from one that passes
      the check adds its quantity to the account of the recipient; a new peer is remembered. Any other
      notice is dropped. */
  lemma NoticeExactly(n: Net, i: nat, validates: bool)
    requires NetOk(n) && i < |n.flight| && n.flight[i].mail.CreditNotice?
    ensures
      var (l, n') := (n.flight[i], Step(n, Deliver(i, validates)));
      var (t, from) := (l.mail.target, l.source);
      && n'.flight == Without(n.flight, i)
      && if t in n.subs && (from == n.rootId || from in n.subs[t].ledgers || validates) then
           && OnlyAt(n, n', t) && Moves(n.subs[t].balance, n'.subs[t].balance, None, Some(l.mail.recipient), l.mail.quantity)
           && n'.subs[t].ledgers.Keys == n.subs[t].ledgers.Keys + (if from == n.rootId then {} else {from})
         else
           Unchanged(n, n')
  {
    var (l, n') := (n.flight[i], Step(n, Deliver(i, validates)));
    assert LetterOk(n, l);
    NoLetters(l.mail.target);
    if l.mail.target in n.subs {
      TrustedNotice(n.subs[l.mail.target], RequestOf(l), validates);
    }
  }

  lemma TrustedNotice(p: Proc, r: Request, validates: bool)
    requires p.token.Some? && r.recipient.Some? && r.quantity.Some?
    ensures
      var p' := AfterCreditNotice(p, r, validates);
      && p'.outbox == []
      && if r.from == p.token.value || r.from in p.ledgers || validates then
           && Moves(p.balance, p'.balance, None, r.recipient, r.quantity.value) && p'.token == p.token
           && p'.ledgers.Keys == p.ledgers.Keys + (if r.from == p.token.value then {} else {r.from})
         else
           SameBooks(p, p')
  {
  }

  lemma NoLetters(source: Id)
    ensures Letters(source, []) == [] && forall flight: seq<Letter> :: flight + [] == flight
  {
  }

  lemma OneLetter(source: Id, mail: Mail)
    ensures Letters(source, [mail]) == [Letter(source, mail)]
  {
  }

  /** A registration changes no account. The root accepts every new peer, a sub-ledger its root and those
      that pass the check; an accepted one is remembered and answered. */
  lemma RegisterExactly(n: Net, i: nat, validates: bool)
    requires NetOk(n) && i < |n.flight| && n.flight[i].mail.RegisterMail? && IsLedger(n, n.flight[i].mail.target)
    ensures
      var (l, n') := (n.flight[i], Step(n, Deliver(i, validates)));
      var (t, from, rest) := (l.mail.target, l.source, Without(n.flight, i));
      var (p, p') := (ProcAt(n, t), ProcAt(n', t));
      && OnlyAt(n, n', t) && p'.balance == p.balance
      && if from !in p.ledgers && (t == n.rootId || from == n.rootId || validates) then
           p'.ledgers == p.ledgers[from := 0] && n'.flight == rest + [Letter(t, RegisterMail(from))]
         else
           p'.ledgers == p.ledgers && n'.flight == rest
  {
    NoLetters(n.flight[i].mail.target);
    OneLetter(n.flight[i].mail.target, RegisterMail(n.flight[i].source));
  }

  //////////////////////////////////////////////////////////////////////////////
  // Transfers
  //////////////////////////////////////////////////////////////////////////////

  /** The request names a recipient and a quantity, and the sender has it on the ledger. */
  predicate Funded(p: Proc, r: Request) {
    r.recipient.Some? && r.quantity.Some? && r.from in p.balance && 0 <= r.quantity.value <= p.balance[r.from]
  }

  lemma UnfundedDoesNothing(n: Net, ledger: Id, r: Request)
    requires NetOk(n) && Enabled(n, UserTransfer(ledger, r)) && !Funded(ProcAt(n, ledger), r)
    ensures Unchanged(n, Step(n, UserTransfer(ledger, r))) && Step(n, UserTransfer(ledger, r)).flight == n.flight
  {
    NoLetters(ledger);
  }

  /** What the ledger does with a funded transfer: it takes the quantity from the sender, may give it to an
      account of its own, and sends one letter. */
  ghost predicate Transfers(n: Net, ledger: Id, r: Request, to: Option<Id>, mail: Mail)
    requires Enabled(n, UserTransfer(ledger, r)) && r.quantity.Some?
  {
    var n' := Step(n, UserTransfer(ledger, r));
    && OnlyAt(n, n', ledger) && n'.flight == n.flight + [Letter(ledger, mail)]
    && Moves(ProcAt(n, ledger).balance, ProcAt(n', ledger).balance, Some(r.from), to, r.quantity.value)
  }

  /** Without a route the recipient's account is credited, on the root as on a sub-ledger. */
  lemma LocalTransfer(n: Net, ledger: Id, from: Id, recipient: Id, quantity: int)
    requires
      var r := Request(from, Some(recipient), Some(quantity), None);
      NetOk(n) && Enabled(n, UserTransfer(ledger, r)) && Funded(ProcAt(n, ledger), r)
    ensures
      var r := Request(from, Some(recipient), Some(quantity), None);
      Transfers(n, ledger, r, Some(recipient), CreditNotice(recipient, recipient, quantity, from))
  {
    OneLetter(ledger, CreditNotice(recipient, recipient, quantity, from));
  }

  /** With a route the root credits the account of that ledger and tells it of the recipient. */
  lemma RootTransfer(n: Net, from: Id, recipient: Id, quantity: int, route: Id)
    requires
      var r := Request(from, Some(recipient), Some(quantity), Some(route));
      NetOk(n) && Enabled(n, UserTransfer(n.rootId, r)) && Funded(n.root, r)
    ensures
      var r := Request(from, Some(recipient), Some(quantity), Some(route));
      Transfers(n, n.rootId, r, Some(route), CreditNotice(route, recipient, quantity, from))
  {
    OneLetter(n.rootId, CreditNotice(route, recipient, quantity, from));
  }

  /** With the root as its route a sub-ledger credits nobody and asks the root for a transfer. */
  lemma Redemption(n: Net, ledger: Id, from: Id, recipient: Id, quantity: int)
    requires
      var r := Request(from, Some(recipient), Some(quantity), Some(n.rootId));
      NetOk(n) && Enabled(n, UserTransfer(ledger, r)) && ledger in n.subs && Funded(n.subs[ledger], r)
    ensures
      var r := Request(from, Some(recipient), Some(quantity), Some(n.rootId));
      Transfers(n, ledger, r, None, TransferMail(n.rootId, recipient, quantity))
  {
    OneLetter(ledger, TransferMail(n.rootId, recipient, quantity));
  }

  /** With any other route it credits nobody and sends a notice there. */
  lemma PeerTransfer(n: Net, ledger: Id, from: Id, recipient: Id, quantity: int, route: Id)
    requires
      var r := Request(from, Some(recipient), Some(quantity), Some(route));
      NetOk(n) && Enabled(n, UserTransfer(ledger, r)) && ledger in n.subs && Funded(n.subs[ledger], r) && route != n.rootId
    ensures
      var r := Request(from, Some(recipient), Some(quantity), Some(route));
      Transfers(n, ledger, r, None, CreditNotice(route, recipient, quantity, from))
  {
    OneLetter(ledger, CreditNotice(route, recipient, quantity, from));
  }

  //////////////////////////////////////////////////////////////////////////////
  // Whole ways
  //////////////////////////////////////////////////////////////////////////////

  /** A deposit: a transfer on the root routed to a sub-ledger, and its delivery there, whatever the peer
      check says. */
  lemma DepositArrives(n: Net, from: Id, user: Id, quantity: int, ledger: Id, validates: bool) returns (n': Net)
    requires
      var r := Request(from, Some(user), Some(quantity), Some(ledger));
      NetOk(n) && Enabled(n, UserTransfer(n.rootId, r)) && Funded(n.root, r) && ledger in n.subs
    ensures
      var r := Request(from, Some(user), Some(quantity), Some(ledger));
      n' == Step(Step(n, UserTransfer(n.rootId, r)), Deliver(|n.flight|, validates))
    ensures n'.flight == n.flight && SameLedgers(n, n')
    ensures Moves(n.root.balance, n'.root.balance, Some(from), Some(ledger), quantity)
    ensures Moves(n.subs[ledger].balance, n'.subs[ledger].balance, None, Some(user), quantity)
  {
    var r := Request(from, Some(user), Some(quantity), Some(ledger));
    var n1 := Step(n, UserTransfer(n.rootId, r));
    RootTransfer(n, from, user, quantity, ledger);
    StepOk(n, UserTransfer(n.rootId, r));
    NoticeExactly(n1, |n.flight|, validates);
    n' := Step(n1, Deliver(|n.flight|, validates));
    LastOut(n.flight, n1.flight[|n.flight|]);
  }

  lemma LastOut(flight: seq<Letter>, l: Letter)
    ensures Without(flight + [l], |flight|) == flight
  {
  }

  /** A withdrawal: a transfer on a sub-ledger routed to the root, and its delivery there while the root
      holds enough for the ledger. */
  lemma WithdrawalArrives(n: Net, ledger: Id, from: Id, user: Id, quantity: int, validates: bool) returns (n': Net)
    requires
      var r := Request(from, Some(user), Some(quantity), Some(n.rootId));
      NetOk(n) && Enabled(n, UserTransfer(ledger, r)) && ledger in n.subs && Funded(n.subs[ledger], r)
    requires ledger in n.root.balance && quantity <= n.root.balance[ledger]
    ensures
      var r := Request(from, Some(user), Some(quantity), Some(n.rootId));
      n' == Step(Step(n, UserTransfer(ledger, r)), Deliver(|n.flight|, validates))
    ensures SameLedgers(n, n')
    ensures Moves(n.subs[ledger].balance, n'.subs[ledger].balance, Some(from), None, quantity)
    ensures Moves(n.root.balance, n'.root.balance, Some(ledger), Some(user), quantity)
  {
    var r := Request(from, Some(user), Some(quantity), Some(n.rootId));
    var n1 := Step(n, UserTransfer(ledger, r));
    Redemption(n, ledger, from, user, quantity);
    StepOk(n, UserTransfer(ledger, r));
    RedemptionExactly(n1, |n.flight|, validates);
    n' := Step(n1, Deliver(|n.flight|, validates));
    StepOk(n1, Deliver(|n.flight|, validates));
  }

  /** A payment from ledger to ledger: the users' accounts change by the quantity, and the root's accounts
      of the two ledgers not at all. It is lost if the other ledger does not trust the first. */
  lemma PaymentArrives(n: Net, ledger: Id, from: Id, user: Id, quantity: int, other: Id, validates: bool) returns (n': Net)
    requires
      var r := Request(from, Some(user), Some(quantity), Some(other));
      NetOk(n) && Enabled(n, UserTransfer(ledger, r)) && ledger in n.subs && Funded(n.subs[ledger], r)
    requires other in n.subs && other != ledger
    ensures
      var r := Request(from, Some(user), Some(quantity), Some(other));
      n' == Step(Step(n, UserTransfer(ledger, r)), Deliver(|n.flight|, validates))
    ensures n'.flight == n.flight && SameLedgers(n, n') && n'.root.balance == n.root.balance
    ensures Moves(n.subs[ledger].balance, n'.subs[ledger].balance, Some(from), None, quantity)
    ensures
      var trusted := ledger in n.subs[other].ledgers || validates;
      Moves(n.subs[other].balance, n'.subs[other].balance, None, Some(user), if trusted then quantity else 0)
  {
    var r := Request(from, Some(user), Some(quantity), Some(other));
    var n1 := Step(n, UserTransfer(ledger, r));
    PeerTransfer(n, ledger, from, user, quantity, other);
    StepOk(n, UserTransfer(ledger, r));
    NoticeExactly(n1, |n.flight|, validates);
    n' := Step(n1, Deliver(|n.flight|, validates));
    LastOut(n.flight, n1.flight[|n.flight|]);
  }
}

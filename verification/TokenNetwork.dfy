/** A network of token ledgers: the root, its sub-ledgers and the messages between them
    (scripts/hyper-token.lua). A message counts as from a ledger only if that ledger sent it, and
    each message is consumed at most once. */
module TokenNetwork {
  import opened Options
  import opened MapSum
  import opened HyperToken

  datatype Letter = Letter(source: Id, mail: Mail)

  datatype Net = Net(rootId: Id, root: Proc, subs: map<Id, Proc>, flight: seq<Letter>)

  /** Users ask ledgers for transfers; letters are delivered in any order, with any outcome of the
      peer check, or lost. */
  datatype Action =
    | UserTransfer(ledger: Id, request: Request)
    | Deliver(i: nat, validates: bool)
    | Lose(j: nat)

  /** Accounts of ledgers, as opposed to users. */
  predicate IsLedger(n: Net, a: Id) { a == n.rootId || a in n.subs }

  predicate Enabled(n: Net, a: Action) {
    match a
    case UserTransfer(ledger, request) => IsLedger(n, ledger) && !IsLedger(n, request.from)
    case Deliver(i, _) => i < |n.flight|
    case Lose(i) => i < |n.flight|
  }

  function ProcAt(n: Net, ledger: Id): Proc
    requires IsLedger(n, ledger)
  {
    if ledger == n.rootId then n.root else n.subs[ledger]
  }

  function Letters(source: Id, mails: seq<Mail>): (letters: seq<Letter>)
    ensures |letters| == |mails|
    ensures forall i | 0 <= i < |mails| :: letters[i] == Letter(source, mails[i])
  {
    seq(|mails|, i requires 0 <= i < |mails| => Letter(source, mails[i]))
  }

  /** A ledger has processed a message; its outbox goes out. */
  function After(n: Net, ledger: Id, p: Proc): Net
    requires IsLedger(n, ledger)
  {
    var n' := if ledger == n.rootId then n.(root := p) else n.(subs := n.subs[ledger := p]);
    n'.(flight := n.flight + Letters(ledger, p.outbox))
  }

  function Without(s: seq<Letter>, i: nat): seq<Letter>
    requires i < |s|
  {
    s[..i] + s[i + 1..]
  }

  function RequestOf(l: Letter): Request {
    match l.mail
    case CreditNotice(_, recipient, quantity, _) => Request(l.source, Some(recipient), Some(quantity), None)
    case TransferMail(_, recipient, quantity) => Request(l.source, Some(recipient), Some(quantity), None)
    case RegisterMail(_) => Request(l.source, None, None, None)
  }

  function Handled(p: Proc, l: Letter, validates: bool): Proc {
    match l.mail
    case CreditNotice(_, _, _, _) => AfterCreditNotice(p, RequestOf(l), validates)
    case TransferMail(_, _, _) => AfterTransfer(p, RequestOf(l))
    case RegisterMail(_) => AfterRegister(p, l.source, validates)
  }

  function Step(n: Net, a: Action): Net
    requires Enabled(n, a)
  {
    match a
    case UserTransfer(ledger, request) => After(n, ledger, AfterTransfer(ProcAt(n, ledger), request))
    case Deliver(i, validates) =>
      var (letter, n') := (n.flight[i], n.(flight := Without(n.flight, i)));
      var target := letter.mail.target;
      if IsLedger(n, target) then After(n', target, Handled(ProcAt(n, target), letter, validates)) else n'
    case Lose(i) => n.(flight := Without(n.flight, i))
  }

  //////////////////////////////////////////////////////////////////////////////
  // Value
  //////////////////////////////////////////////////////////////////////////////

  function Ledgers(n: Net): set<Id> { {n.rootId} + n.subs.Keys }

  function In(ids: set<Id>): Id -> bool { (a: Id) => a in ids }

  function NotIn(ids: set<Id>): Id -> bool { (a: Id) => a !in ids }

  ghost function LedgerSum(n: Net, balance: map<Id, int>): int { SumIf(balance, In(Ledgers(n))) }

  ghost function UserSum(n: Net, balance: map<Id, int>): int { SumIf(balance, NotIn(Ledgers(n))) }

  /** What the root holds for ledgers. */
  ghost function Cover(n: Net): int { LedgerSum(n, n.root.balance) }

  ghost function UsersAt(n: Net, p: Proc): int { UserSum(n, p.balance) }

  ghost function UserSums(n: Net): map<Id, int> {
    map l | l in n.subs :: UsersAt(n, n.subs[l])
  }

  /** What a letter may still credit to a user: notices to sub-ledgers, and transfers to the root. */
  function Value(subs: set<Id>, ledgers: set<Id>): Letter -> int {
    (l: Letter) =>
      match l.mail
      case CreditNotice(target, recipient, quantity, _) => if target in subs && recipient !in ledgers then quantity else 0
      case TransferMail(_, _, quantity) => quantity
      case RegisterMail(_) => 0
  }

  function ValueIn(n: Net): Letter -> int { Value(n.subs.Keys, Ledgers(n)) }

  function FlightSum(flight: seq<Letter>, f: Letter -> int): int {
    if flight == [] then 0 else f(flight[0]) + FlightSum(flight[1..], f)
  }

  /** All that sub-ledgers owe to users: balances and value in flight. */
  ghost function Owed(n: Net): int { Sum(UserSums(n)) + FlightSum(n.flight, ValueIn(n)) }

  /** All that users own anywhere, or that is on its way to them. */
  ghost function UserValue(n: Net): int { UsersAt(n, n.root) + Owed(n) }

  ghost function Slack(n: Net): int { Cover(n) - Owed(n) }

  //////////////////////////////////////////////////////////////////////////////
  // Well-formed networks
  //////////////////////////////////////////////////////////////////////////////

  predicate LetterOk(n: Net, l: Letter) {
    match l.mail
    case CreditNotice(_, _, quantity, _) => quantity >= 0 && IsLedger(n, l.source)
    case TransferMail(target, _, quantity) => quantity >= 0 && target == n.rootId && l.source in n.subs
    case RegisterMail(_) => IsLedger(n, l.source)
  }

  predicate NonNegative(balance: map<Id, int>) {
    forall a | a in balance :: balance[a] >= 0
  }

  /** One root, sub-ledgers of it, and letters that their sources could have sent. */
  predicate NetOk(n: Net) {
    && n.rootId !in n.subs && IsRoot(n.root) && NonNegative(n.root.balance)
    && (forall l | l in n.subs :: n.subs[l].token == Some(n.rootId) && NonNegative(n.subs[l].balance))
    && (forall l | l in n.flight :: LetterOk(n, l))
  }

  //////////////////////////////////////////////////////////////////////////////
  // Sums under change
  //////////////////////////////////////////////////////////////////////////////

  /** A balance is split between ledgers and users. */
  lemma PartsSum(n: Net, balance: map<Id, int>)
    ensures LedgerSum(n, balance) + UserSum(n, balance) == Sum(balance)
  {
    SumIfSplit(balance, In(Ledgers(n)), NotIn(Ledgers(n)), Any());
  }

  lemma {:induction false} FlightSumAppend(a: seq<Letter>, b: seq<Letter>, f: Letter -> int)
    ensures FlightSum(a + b, f) == FlightSum(a, f) + FlightSum(b, f)
  {
    if a == [] {
      assert a + b == b;
    } else {
      assert (a + b)[1..] == a[1..] + b;
      FlightSumAppend(a[1..], b, f);
    }
  }

  lemma FlightSumWithout(flight: seq<Letter>, i: nat, f: Letter -> int)
    requires i < |flight|
    ensures FlightSum(flight, f) == FlightSum(Without(flight, i), f) + f(flight[i])
  {
    assert flight == flight[..i] + ([flight[i]] + flight[i + 1..]);
    FlightSumAppend(flight[..i], [flight[i]] + flight[i + 1..], f);
    FlightSumAppend([flight[i]], flight[i + 1..], f);
    FlightSumAppend(flight[..i], flight[i + 1..], f);
  }

  /** The same ledgers exist, so the same accounts are ledger accounts. */
  predicate SameLedgers(n: Net, n': Net) { n'.rootId == n.rootId && n'.subs.Keys == n.subs.Keys }

  /** What one processed message does to the sums, by where it is processed. */
  lemma AfterSums(n: Net, ledger: Id, p: Proc)
    requires IsLedger(n, ledger) && n.rootId !in n.subs
    ensures
      var n' := After(n, ledger, p);
      var q := ProcAt(n, ledger);
      && SameLedgers(n, n')
      && FlightSum(n'.flight, ValueIn(n')) == FlightSum(n.flight, ValueIn(n)) + FlightSum(Letters(ledger, p.outbox), ValueIn(n))
      && (if ledger == n.rootId then
            && n'.subs == n.subs && Sum(UserSums(n')) == Sum(UserSums(n)) && Cover(n') == LedgerSum(n, p.balance)
          else
            && n'.root == n.root && Cover(n') == Cover(n)
            && Sum(UserSums(n')) == Sum(UserSums(n)) - UsersAt(n, q) + UsersAt(n, p))
  {
    var n' := After(n, ledger, p);
    FlightSumAppend(n.flight, Letters(ledger, p.outbox), ValueIn(n));
    assert Ledgers(n') == Ledgers(n);
    if ledger == n.rootId {
      assert UserSums(n') == UserSums(n);
    } else {
      SumUpdate(UserSums(n), ledger, UsersAt(n, p));
      assert UserSums(n') == UserSums(n)[ledger := UsersAt(n, p)];
    }
  }

  //////////////////////////////////////////////////////////////////////////////
  // Single messages
  //////////////////////////////////////////////////////////////////////////////

  /** Three sums of a balance: everything, the accounts of ledgers, the accounts of users. */
  ghost predicate Moved(n: Net, b: map<Id, int>, b': map<Id, int>, toLedgers: int, toUsers: int) {
    && Sum(b') == Sum(b) + toLedgers + toUsers
    && LedgerSum(n, b') == LedgerSum(n, b) + toLedgers
    && UserSum(n, b') == UserSum(n, b) + toUsers
  }

  function IfLedger(n: Net, a: Id, quantity: int): int { if IsLedger(n, a) then quantity else 0 }

  lemma CreditMoves(n: Net, p: Proc, a: Id, quantity: int)
    ensures Moved(n, p.balance, Credited(p, a, quantity).balance, IfLedger(n, a, quantity), quantity - IfLedger(n, a, quantity))
    ensures a in p.balance ==> Debited(p, a, -quantity).balance == Credited(p, a, quantity).balance
  {
    var v := At(p.balance, a) + quantity;
    SumUpdate(p.balance, a, v);
    SumIfUpdate(p.balance, In(Ledgers(n)), a, v);
    SumIfUpdate(p.balance, NotIn(Ledgers(n)), a, v);
  }

  /** What a transfer that stays on a ledger moves, and one that leaves it. */
  lemma TransferMoves(n: Net, p: Proc, r: Request)
    requires Transferable(p, r)
    ensures
      var (p', q) := (AfterTransfer(p, r), r.quantity.value);
      var debit := IfLedger(n, r.from, q);
      var credit := IfLedger(n, DirectRecipient(r), q);
      if StaysHere(p, r) then Moved(n, p.balance, p'.balance, credit - debit, debit - credit)
      else Moved(n, p.balance, p'.balance, -debit, debit - q)
  {
    var (q, p1) := (r.quantity.value, Debited(p, r.from, r.quantity.value));
    CreditMoves(n, p, r.from, -q);
    if StaysHere(p, r) {
      var d := DirectRecipient(r);
      CreditMoves(n, p1, d, q);
    }
  }

  lemma SendsOne(ledger: Id, p: Proc, r: Request, f: Letter -> int)
    ensures
      FlightSum(Letters(ledger, AfterTransfer(p, r).outbox), f)
      == if Transferable(p, r) then f(Letter(ledger, TransferMailOf(p, r))) else 0
  {
    if Transferable(p, r) {
      assert Letters(ledger, AfterTransfer(p, r).outbox) == [Letter(ledger, TransferMailOf(p, r))];
    } else {
      assert Letters(ledger, AfterTransfer(p, r).outbox) == [];
    }
  }

  /** A transfer by a user never lowers the slack. */
  lemma UserTransferSlack(n: Net, a: Action)
    requires NetOk(n) && a.UserTransfer? && Enabled(n, a)
    ensures Slack(Step(n, a)) >= Slack(n)
  {
    var p := ProcAt(n, a.ledger);
    AfterSums(n, a.ledger, AfterTransfer(p, a.request));
    SendsOne(a.ledger, p, a.request, ValueIn(n));
    if Transferable(p, a.request) {
      TransferMoves(n, p, a.request);
    }
  }

  /** Taking a letter out of flight frees its value. */
  lemma TakenSlack(n: Net, i: nat)
    requires i < |n.flight|
    ensures Slack(n.(flight := Without(n.flight, i))) == Slack(n) + ValueIn(n)(n.flight[i])
  {
    var n' := n.(flight := Without(n.flight, i));
    FlightSumWithout(n.flight, i, ValueIn(n));
    assert Ledgers(n') == Ledgers(n);
    assert UserSums(n') == UserSums(n);
  }

  lemma TakenOk(n: Net, i: nat)
    requires NetOk(n) && i < |n.flight|
    ensures NetOk(n.(flight := Without(n.flight, i)))
  {
    var n' := n.(flight := Without(n.flight, i));
    forall l | l in n'.flight ensures LetterOk(n', l) {
      assert l in n.flight && LetterOk(n, l);
    }
  }

  /** A redemption at the root: the ledger's account pays the recipient, or nothing happens. */
  lemma RedeemSlack(n: Net, l: Letter)
    requires NetOk(n) && LetterOk(n, l) && l.mail.TransferMail?
    ensures Slack(After(n, n.rootId, AfterTransfer(n.root, RequestOf(l)))) >= Slack(n) - ValueIn(n)(l)
  {
    var r := RequestOf(l);
    AfterSums(n, n.rootId, AfterTransfer(n.root, r));
    SendsOne(n.rootId, n.root, r, ValueIn(n));
    if Transferable(n.root, r) {
      TransferMoves(n, n.root, r);
    }
  }

  /** A notice at a sub-ledger: a trusted one credits its value to a user, or to a ledger account. */
  lemma NoticeSlack(n: Net, l: Letter, validates: bool)
    requires NetOk(n) && LetterOk(n, l) && l.mail.CreditNotice? && l.mail.target in n.subs
    ensures
      var p := n.subs[l.mail.target];
      Slack(After(n, l.mail.target, AfterCreditNotice(p, RequestOf(l), validates))) >= Slack(n) - ValueIn(n)(l)
  {
    var (t, r) := (l.mail.target, RequestOf(l));
    var p := n.subs[t];
    if Trusts(p, r.from, validates) {
      AfterSums(n, t, AfterCreditNotice(p, r, validates));
      assert Letters(t, AfterCreditNotice(p, r, validates).outbox) == [];
      CreditMoves(n, Remember(p, r.from), l.mail.recipient, l.mail.quantity);
    } else {
      SilentSlack(n, t, AfterCreditNotice(p, r, validates));
    }
  }

  lemma SilentSlack(n: Net, ledger: Id, p: Proc)
    requires NetOk(n) && IsLedger(n, ledger) && p.balance == ProcAt(n, ledger).balance
    requires p.outbox == [] || (|p.outbox| == 1 && p.outbox[0].RegisterMail?)
    ensures Slack(After(n, ledger, p)) == Slack(n)
  {
    AfterSums(n, ledger, p);
    if p.outbox == [] {
      assert Letters(ledger, p.outbox) == [];
    } else {
      assert Letters(ledger, p.outbox) == [Letter(ledger, p.outbox[0])];
    }
  }

  lemma HandledSlack(n: Net, l: Letter, validates: bool)
    requires NetOk(n) && LetterOk(n, l) && IsLedger(n, l.mail.target)
    ensures Slack(After(n, l.mail.target, Handled(ProcAt(n, l.mail.target), l, validates))) >= Slack(n) - ValueIn(n)(l)
  {
    match l.mail
    case TransferMail(_, _, _) => RedeemSlack(n, l);
    case CreditNotice(target, _, _, _) =>
      if target in n.subs {
        NoticeSlack(n, l, validates);
      } else {
        SilentSlack(n, target, AfterCreditNotice(n.root, RequestOf(l), validates));
      }
    case RegisterMail(target) => SilentSlack(n, target, AfterRegister(ProcAt(n, target), l.source, validates));
  }

  //////////////////////////////////////////////////////////////////////////////
  // Solvency
  //////////////////////////////////////////////////////////////////////////////

  lemma StepSlack(n: Net, a: Action)
    requires NetOk(n) && Enabled(n, a)
    ensures Slack(Step(n, a)) >= Slack(n)
  {
    match a
    case UserTransfer(_, _) => UserTransferSlack(n, a);
    case Lose(i) =>
      TakenSlack(n, i);
      ValueNonNegative(n, n.flight[i]);
    case Deliver(i, validates) =>
      var n' := n.(flight := Without(n.flight, i));
      TakenSlack(n, i);
      ValueNonNegative(n, n.flight[i]);
      TakenOk(n, i);
      if IsLedger(n, n.flight[i].mail.target) {
        HandledSlack(n', n.flight[i], validates);
        assert ValueIn(n') == ValueIn(n);
      }
  }

  lemma ValueNonNegative(n: Net, l: Letter)
    requires NetOk(n) && l in n.flight
    ensures ValueIn(n)(l) >= 0
  {
    assert LetterOk(n, l);
  }

  //////////////////////////////////////////////////////////////////////////////
  // Networks stay well formed
  //////////////////////////////////////////////////////////////////////////////

  /** A processed message leaves a ledger with non-negative accounts and letters it may send. */
  predicate ProcOk(n: Net, ledger: Id, p: Proc) {
    && p.token == (if ledger == n.rootId then None else Some(n.rootId))
    && NonNegative(p.balance)
    && forall m | m in p.outbox :: LetterOk(n, Letter(ledger, m))
  }

  lemma AfterOk(n: Net, ledger: Id, p: Proc)
    requires NetOk(n) && IsLedger(n, ledger) && ProcOk(n, ledger, p)
    ensures NetOk(After(n, ledger, p)) && SameLedgers(n, After(n, ledger, p))
  {
    var n' := After(n, ledger, p);
    forall l | l in n'.flight ensures LetterOk(n', l) {
      if l in n.flight {
        assert LetterOk(n, l);
      } else {
        var i :| 0 <= i < |p.outbox| && l == Letter(ledger, p.outbox[i]);
        assert LetterOk(n, Letter(ledger, p.outbox[i]));
      }
    }
  }

  lemma TransferOk(n: Net, ledger: Id, r: Request)
    requires NetOk(n) && IsLedger(n, ledger)
    ensures ProcOk(n, ledger, AfterTransfer(ProcAt(n, ledger), r))
  {
  }

  lemma StepOk(n: Net, a: Action)
    requires NetOk(n) && Enabled(n, a)
    ensures NetOk(Step(n, a)) && SameLedgers(n, Step(n, a))
  {
    match a
    case UserTransfer(ledger, request) =>
      TransferOk(n, ledger, request);
      AfterOk(n, ledger, AfterTransfer(ProcAt(n, ledger), request));
    case Lose(i) => TakenOk(n, i);
    case Deliver(i, validates) =>
      var (n', l) := (n.(flight := Without(n.flight, i)), n.flight[i]);
      assert LetterOk(n, l);
      TakenOk(n, i);
      if IsLedger(n, l.mail.target) {
        AfterOk(n', l.mail.target, Handled(ProcAt(n', l.mail.target), l, validates));
      }
  }

  lemma StepRootTotal(n: Net, a: Action)
    requires NetOk(n) && Enabled(n, a)
    ensures Sum(Step(n, a).root.balance) == Sum(n.root.balance)
  {
    if a.UserTransfer? {
      if a.ledger == n.rootId && Transferable(n.root, a.request) {
        TransferMoves(n, n.root, a.request);
      }
    } else if a.Deliver? {
      var r := RequestOf(n.flight[a.i]);
      if n.flight[a.i].mail.TransferMail? && Transferable(n.root, r) {
        TransferMoves(n, n.root, r);
      }
    }
  }

  function Run(n: Net, actions: seq<Action>): Net
    requires CanRun(n, actions)
    decreases actions
  {
    if actions == [] then n else Run(Step(n, actions[0]), actions[1..])
  }

  /** Every action is enabled when its turn comes. */
  predicate CanRun(n: Net, actions: seq<Action>)
    decreases actions
  {
    actions != [] ==> Enabled(n, actions[0]) && CanRun(Step(n, actions[0]), actions[1..])
  }

  lemma {:induction false} RunFacts(n: Net, actions: seq<Action>)
    requires NetOk(n) && CanRun(n, actions)
    ensures
      var n' := Run(n, actions);
      NetOk(n') && SameLedgers(n, n') && Slack(n') >= Slack(n) && Sum(n'.root.balance) == Sum(n.root.balance)
    decreases actions
  {
    if actions != [] {
      StepOk(n, actions[0]);
      StepSlack(n, actions[0]);
      StepRootTotal(n, actions[0]);
      RunFacts(Step(n, actions[0]), actions[1..]);
    }
  }

  /** Network solvency. Over every interleaving of transfers, deliveries and losses: the root's total
      is constant, no account goes below zero, what users own or are about to receive never grows,
      and a root that covers what the sub-ledgers owe to users always will. */
  lemma Solvency(n: Net, actions: seq<Action>)
    requires NetOk(n) && CanRun(n, actions)
    ensures
      var n' := Run(n, actions);
      && Sum(n'.root.balance) == Sum(n.root.balance)
      && NonNegative(n'.root.balance) && (forall l | l in n'.subs :: NonNegative(n'.subs[l].balance))
      && UserValue(n') <= UserValue(n)
      && (Cover(n) >= Owed(n) ==> Cover(n') >= Owed(n'))
  {
    var n' := Run(n, actions);
    RunFacts(n, actions);
    PartsSum(n, n.root.balance);
    PartsSum(n', n'.root.balance);
  }

  /** With no accounts on sub-ledgers and nothing in flight, the root covers what they owe. */
  lemma {:induction false} FreshNetworkIsCovered(n: Net)
    requires NetOk(n) && n.flight == [] && forall l | l in n.subs :: n.subs[l].balance == map[]
    ensures Cover(n) >= Owed(n)
  {
    forall l | l in n.subs ensures UserSums(n)[l] == 0 {
      assert SumIf(map[], NotIn(Ledgers(n))) == 0;
    }
    SumZero(UserSums(n), Any());
    SumNonNegative(n.root.balance, In(Ledgers(n)));
  }

  //////////////////////////////////////////////////////////////////////////////
  // Single ledgers
  //////////////////////////////////////////////////////////////////////////////

  /** What ledger `id` owes to users, alone: notices on their way to it and its own redemptions. */
  function Due(ledgers: set<Id>, id: Id): Letter -> int {
    (l: Letter) =>
      match l.mail
      case CreditNotice(target, recipient, quantity, _) => if target == id && recipient !in ledgers then quantity else 0
      case TransferMail(_, _, quantity) => if l.source == id then quantity else 0
      case RegisterMail(_) => 0
  }

  function DueAt(n: Net, id: Id): Letter -> int { Due(Ledgers(n), id) }

  /** The root's account of one sub-ledger, less what that ledger owes to users. */
  ghost function LedgerSlack(n: Net, id: Id): int
    requires id in n.subs
  {
    At(n.root.balance, id) - UsersAt(n, n.subs[id]) - FlightSum(n.flight, DueAt(n, id))
  }

  lemma AfterDue(n: Net, ledger: Id, p: Proc, id: Id)
    requires IsLedger(n, ledger) && n.rootId !in n.subs && id in n.subs
    ensures
      var n' := After(n, ledger, p);
      && SameLedgers(n, n')
      && FlightSum(n'.flight, DueAt(n', id)) == FlightSum(n.flight, DueAt(n, id)) + FlightSum(Letters(ledger, p.outbox), DueAt(n, id))
      && At(n'.root.balance, id) == At((if ledger == n.rootId then p else n.root).balance, id)
      && UsersAt(n', n'.subs[id]) == UsersAt(n, if ledger == id then p else n.subs[id])
  {
    assert Ledgers(After(n, ledger, p)) == Ledgers(n);
    FlightSumAppend(n.flight, Letters(ledger, p.outbox), DueAt(n, id));
  }

  lemma TakenDue(n: Net, i: nat, id: Id)
    requires i < |n.flight| && id in n.subs
    ensures
      var n' := n.(flight := Without(n.flight, i));
      Ledgers(n') == Ledgers(n) && LedgerSlack(n', id) == LedgerSlack(n, id) + DueAt(n, id)(n.flight[i])
  {
    var n' := n.(flight := Without(n.flight, i));
    assert Ledgers(n') == Ledgers(n);
    FlightSumWithout(n.flight, i, DueAt(n, id));
  }

  /** A user of another sub-ledger sends value to a user here, ledger to ledger. */
  predicate PeerTransferTo(n: Net, a: Action, id: Id)
    requires Enabled(n, a)
  {
    && a.UserTransfer? && a.ledger in n.subs && a.ledger != id
    && Transferable(n.subs[a.ledger], a.request)
    && a.request.route == Some(id) && a.request.quantity.value > 0
    && !IsLedger(n, a.request.recipient.value)
  }

  lemma UserTransferDue(n: Net, a: Action, id: Id)
    requires NetOk(n) && a.UserTransfer? && Enabled(n, a) && id in n.subs
    ensures
      var n' := Step(n, a);
      id in n'.subs &&
      if PeerTransferTo(n, a, id) then LedgerSlack(n', id) == LedgerSlack(n, id) - a.request.quantity.value
      else LedgerSlack(n', id) >= LedgerSlack(n, id)
  {
    var (p, r) := (ProcAt(n, a.ledger), a.request);
    AfterDue(n, a.ledger, AfterTransfer(p, r), id);
    SendsOne(a.ledger, p, r, DueAt(n, id));
    if Transferable(p, r) {
      TransferMoves(n, p, r);
    }
  }

  lemma RedeemDue(n: Net, l: Letter, id: Id)
    requires NetOk(n) && LetterOk(n, l) && l.mail.TransferMail? && id in n.subs
    ensures
      var n' := After(n, n.rootId, AfterTransfer(n.root, RequestOf(l)));
      LedgerSlack(n', id) >= LedgerSlack(n, id) - DueAt(n, id)(l)
  {
    var r := RequestOf(l);
    AfterDue(n, n.rootId, AfterTransfer(n.root, r), id);
    SendsOne(n.rootId, n.root, r, DueAt(n, id));
  }

  lemma NoticeDue(n: Net, l: Letter, validates: bool, id: Id)
    requires NetOk(n) && LetterOk(n, l) && l.mail.CreditNotice? && l.mail.target in n.subs && id in n.subs
    ensures
      var p := n.subs[l.mail.target];
      var n' := After(n, l.mail.target, AfterCreditNotice(p, RequestOf(l), validates));
      id in n'.subs && LedgerSlack(n', id) >= LedgerSlack(n, id) - DueAt(n, id)(l)
  {
    var (t, r) := (l.mail.target, RequestOf(l));
    var p := n.subs[t];
    var p' := AfterCreditNotice(p, r, validates);
    AfterDue(n, t, p', id);
    assert Letters(t, p'.outbox) == [];
    if Trusts(p, r.from, validates) {
      CreditMoves(n, Remember(p, r.from), l.mail.recipient, l.mail.quantity);
    }
  }

  lemma SilentDue(n: Net, ledger: Id, p: Proc, id: Id)
    requires NetOk(n) && IsLedger(n, ledger) && p.balance == ProcAt(n, ledger).balance && id in n.subs
    requires p.outbox == [] || (|p.outbox| == 1 && p.outbox[0].RegisterMail?)
    ensures
      var n' := After(n, ledger, p);
      id in n'.subs && LedgerSlack(n', id) == LedgerSlack(n, id)
  {
    AfterDue(n, ledger, p, id);
    if p.outbox == [] {
      assert Letters(ledger, p.outbox) == [];
    } else {
      assert Letters(ledger, p.outbox) == [Letter(ledger, p.outbox[0])];
    }
  }

  lemma HandledDue(n: Net, l: Letter, validates: bool, id: Id)
    requires NetOk(n) && LetterOk(n, l) && IsLedger(n, l.mail.target) && id in n.subs
    ensures
      var n' := After(n, l.mail.target, Handled(ProcAt(n, l.mail.target), l, validates));
      id in n'.subs && LedgerSlack(n', id) >= LedgerSlack(n, id) - DueAt(n, id)(l)
  {
    var t := l.mail.target;
    match l.mail
    case TransferMail(_, _, _) => RedeemDue(n, l, id);
    case CreditNotice(_, _, _, _) =>
      if t in n.subs {
        NoticeDue(n, l, validates, id);
      } else {
        SilentDue(n, t, AfterCreditNotice(n.root, RequestOf(l), validates), id);
        assert LetterOk(n, l);
      }
    case RegisterMail(_) => SilentDue(n, t, AfterRegister(ProcAt(n, t), l.source, validates), id);
  }

  /** The cover of a single ledger shrinks in a step if and only if the step is a positive transfer
      to its users from another sub-ledger, and then by exactly that quantity: such transfers leave
      the root's accounts of the two ledgers as they were. */
  lemma LedgerSlackDropsExactly(n: Net, a: Action, id: Id)
    requires NetOk(n) && Enabled(n, a) && id in n.subs
    ensures id in Step(n, a).subs
    ensures LedgerSlack(Step(n, a), id) < LedgerSlack(n, id) <==> PeerTransferTo(n, a, id)
    ensures PeerTransferTo(n, a, id) ==> LedgerSlack(Step(n, a), id) == LedgerSlack(n, id) - a.request.quantity.value
  {
    match a
    case UserTransfer(_, _) => UserTransferDue(n, a, id);
    case Lose(i) =>
      TakenDue(n, i, id);
      assert LetterOk(n, n.flight[i]);
    case Deliver(i, validates) =>
      var n' := n.(flight := Without(n.flight, i));
      TakenDue(n, i, id);
      TakenOk(n, i);
      assert LetterOk(n, n.flight[i]);
      if IsLedger(n, n.flight[i].mail.target) {
        HandledDue(n', n.flight[i], validates, id);
      }
  }

  /** A redemption in flight from a covered ledger will be honoured by the root. */
  lemma RedemptionHonoured(n: Net, i: nat)
    requires NetOk(n) && i < |n.flight| && n.flight[i].mail.TransferMail?
    requires n.flight[i].source in n.subs && LedgerSlack(n, n.flight[i].source) >= 0 && n.flight[i].source in n.root.balance
    ensures Transferable(n.root, RequestOf(n.flight[i]))
  {
    var id := n.flight[i].source;
    FlightSumWithout(n.flight, i, DueAt(n, id));
    assert LetterOk(n, n.flight[i]);
    DueNonNegative(n, Without(n.flight, i), id);
    SumNonNegative(n.subs[id].balance, NotIn(Ledgers(n)));
  }

  /** The root honours a redemption, whether the ledger is covered or not, exactly if its quantity is at most
      what the root holds for the ledger: then the recipient has it and a notice is sent, and otherwise
      nothing happens. */
  lemma RedemptionExactly(n: Net, i: nat, validates: bool)
    requires NetOk(n) && i < |n.flight| && n.flight[i].mail.TransferMail?
    ensures
      var (l, n') := (n.flight[i], Step(n, Deliver(i, validates)));
      var (q, rest) := (l.mail.quantity, Without(n.flight, i));
      if l.source in n.root.balance && q <= n.root.balance[l.source] then
        && n'.root.balance == Credited(Debited(n.root, l.source, q), l.mail.recipient, q).balance
        && n'.flight == rest + [Letter(n.rootId, CreditNotice(l.mail.recipient, l.mail.recipient, q, l.source))]
      else n'.root.balance == n.root.balance && n'.flight == rest
  {
    assert LetterOk(n, n.flight[i]);
    assert Letters(n.rootId, []) == [];
  }

  lemma {:induction false} DueNonNegative(n: Net, flight: seq<Letter>, id: Id)
    requires forall l | l in flight :: LetterOk(n, l)
    ensures FlightSum(flight, DueAt(n, id)) >= 0
  {
    if flight != [] {
      assert LetterOk(n, flight[0]);
      DueNonNegative(n, flight[1..], id);
    }
  }

  /** A network of the root and two sub-ledgers A and B, where Alice has an account on A. */
  predicate TwoLedgers(n: Net, alice: int, bob: Option<int>, flight: seq<Letter>) {
    && n.rootId == "root" && n.root.token.None? && n.root.balance == map["A" := 10]
    && n.subs.Keys == {"A", "B"} && n.subs["A"].token == Some("root") && n.subs["B"].token == Some("root")
    && n.subs["A"].balance == map["alice" := alice]
    && n.subs["B"].balance == (if bob.Some? then map["bob" := bob.value] else map[])
    && n.flight == flight
  }

  const ALICE_PAYS_BOB := UserTransfer("A", Request("alice", Some("bob"), Some(10), Some("B")))
  const BOB_REDEEMS := UserTransfer("B", Request("bob", Some("bob"), Some(10), Some("root")))
  const NOTICE_TO_B := Letter("A", CreditNotice("B", "bob", 10, "alice"))

  const LOST_RUN := [ALICE_PAYS_BOB, Deliver(0, true), BOB_REDEEMS, Deliver(0, true)]

  /** The rest of the run, from its k-th state. */
  predicate Ends(n: Net, k: nat)
    requires k <= 4
  {
    CanRun(n, LOST_RUN[k..]) && TwoLedgers(Run(n, LOST_RUN[k..]), 0, Some(0), [])
  }

  lemma EndsBefore(n: Net, k: nat)
    requires k < 4 && Enabled(n, LOST_RUN[k]) && Ends(Step(n, LOST_RUN[k]), k + 1)
    ensures Ends(n, k)
  {
    assert LOST_RUN[k..] == [LOST_RUN[k]] + LOST_RUN[k + 1..];
  }

  lemma RedemptionRefused(n: Net)
    requires TwoLedgers(n, 0, Some(10), [])
    ensures Ends(n, 2)
  {
    var n3 := Step(n, BOB_REDEEMS);
    assert LOST_RUN[4..] == [];
    EndsBefore(n3, 3);
    EndsBefore(n, 2);
  }

  lemma NoticeThenRefusal(n: Net)
    requires TwoLedgers(n, 0, None, [NOTICE_TO_B])
    ensures Ends(n, 1)
  {
    RedemptionRefused(Step(n, Deliver(0, true)));
    EndsBefore(n, 1);
  }

  /** And one from an uncovered ledger may be lost: the root holds ten tokens for A, Alice pays them
      to Bob on B, and when Bob redeems them the root finds nothing in B's account. In the end
      nobody has them. */
  lemma PeerRedemptionCanBeLost(n: Net)
    requires TwoLedgers(n, 10, None, [])
    ensures CanRun(n, LOST_RUN) && TwoLedgers(Run(n, LOST_RUN), 0, Some(0), [])
  {
    NoticeThenRefusal(Step(n, ALICE_PAYS_BOB));
    EndsBefore(n, 0);
    assert LOST_RUN[0..] == LOST_RUN;
  }
}

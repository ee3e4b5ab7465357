/** One ledger of the token network (scripts/hyper-token.lua). */
module HyperToken {
  import opened Options
  import opened MapSum

  type Id = string

  /** Messages that a ledger puts into its outbox. */
  datatype Mail =
    | CreditNotice(target: Id, recipient: Id, quantity: int, sender: Id)
    | TransferMail(target: Id, recipient: Id, quantity: int)
    | RegisterMail(target: Id)

  /** A validated message to a ledger; `from` is its signer or the process it comes from. */
  datatype Request = Request(from: Id, recipient: Option<Id>, quantity: Option<int>, route: Option<Id>)

  /** A ledger without a parent token is the root. `outbox` is what the last message made it send. */
  datatype Proc = Proc(token: Option<Id>, balance: map<Id, int>, ledgers: map<Id, int>, outbox: seq<Mail>)

  datatype Status = Ok | Error

  //////////////////////////////////////////////////////////////////////////////
  // Specification functions
  //////////////////////////////////////////////////////////////////////////////

  predicate IsRoot(p: Proc) { p.token.None? }

  /** The source has an account with enough funds, and the quantity is not negative. */
  predicate CanDebit(p: Proc, source: Id, quantity: int) {
    source in p.balance && 0 <= quantity <= p.balance[source]
  }

  function Debited(p: Proc, source: Id, quantity: int): Proc
    requires source in p.balance
  {
    p.(balance := p.balance[source := p.balance[source] - quantity])
  }

  function Credited(p: Proc, account: Id, quantity: int): Proc {
    p.(balance := p.balance[account := At(p.balance, account) + quantity])
  }

  predicate Transferable(p: Proc, r: Request) {
    r.recipient.Some? && r.quantity.Some? && CanDebit(p, r.from, r.quantity.value)
  }

  /** The root, or a ledger asked without a route, credits an account of its own; other transfers
      leave the ledger. */
  predicate StaysHere(p: Proc, r: Request) { IsRoot(p) || r.route.None? }

  function DirectRecipient(r: Request): Id
    requires r.recipient.Some?
  {
    if r.route.Some? then r.route.value else r.recipient.value
  }

  function TransferMailOf(p: Proc, r: Request): Mail
    requires r.recipient.Some? && r.quantity.Some?
  {
    if StaysHere(p, r) then CreditNotice(DirectRecipient(r), r.recipient.value, r.quantity.value, r.from)
    else if r.route == p.token then TransferMail(p.token.value, r.recipient.value, r.quantity.value)
    else CreditNotice(r.route.value, r.recipient.value, r.quantity.value, r.from)
  }

  function AfterTransfer(p: Proc, r: Request): Proc {
    if !Transferable(p, r) then p.(outbox := [])
    else
      var p' := Debited(p, r.from, r.quantity.value);
      (if StaysHere(p, r) then Credited(p', DirectRecipient(r), r.quantity.value) else p').(outbox := [TransferMailOf(p, r)])
  }

  /** `validates` is the outcome of comparing a new peer's code and security parameters with the
      ledger's own; a peer that passes is remembered. */
  predicate Trusts(p: Proc, from: Id, validates: bool) {
    Some(from) == p.token || from in p.ledgers || validates
  }

  function Remember(p: Proc, from: Id): Proc {
    if Some(from) == p.token || from in p.ledgers then p else p.(ledgers := p.ledgers[from := 0])
  }

  function AfterCreditNotice(p: Proc, r: Request, validates: bool): Proc {
    if IsRoot(p) || r.recipient.None? || r.quantity.None? || !Trusts(p, r.from, validates) then p.(outbox := [])
    else Credited(Remember(p, r.from), r.recipient.value, r.quantity.value).(outbox := [])
  }

  /** The root and a ledger registering with its own child accept any peer. */
  function AfterRegister(p: Proc, from: Id, validates: bool): Proc {
    if from in p.ledgers then p.(outbox := [])
    else if IsRoot(p) || Some(from) == p.token || validates then p.(ledgers := p.ledgers[from := 0], outbox := [RegisterMail(from)])
    else p.(outbox := [])
  }

  //////////////////////////////////////////////////////////////////////////////
  // The process
  //////////////////////////////////////////////////////////////////////////////

  class TokenProcess {
    const token: Option<Id>
    var balance: map<Id, int>
    var ledgers: map<Id, int>
    var outbox: seq<Mail>

    ghost function View(): Proc
      reads this
    {
      Proc(token, balance, ledgers, outbox)
    }

    constructor (token: Option<Id>, initial: map<Id, int>)
      ensures View() == Proc(token, initial, map[], [])
    {
      this.token := token;
      balance, ledgers, outbox := initial, map[], [];
    }

    method Send(m: Mail)
      modifies this
      ensures View() == old(View()).(outbox := old(outbox) + [m])
    {
      outbox := outbox + [m];
    }

    method DebitBalance(source: Id, quantity: int) returns (status: Status)
      modifies this
      ensures status.Ok? <==> CanDebit(old(View()), source, quantity)
      ensures View() == if status.Ok? then Debited(old(View()), source, quantity) else old(View())
    {
      if source !in balance {
        return Error;
      }
      if quantity < 0 {
        return Error;
      }
      if balance[source] < quantity {
        return Error;
      }
      balance := balance[source := balance[source] - quantity];
      return Ok;
    }

    method Transfer(r: Request)
      modifies this
      ensures View() == AfterTransfer(old(View()), r)
    {
      outbox := [];
      if r.recipient.None? || r.quantity.None? {
        return;
      }
      var quantity := r.quantity.value;
      var status := DebitBalance(r.from, quantity);
      if status.Error? {
        return;
      }
      if token.None? || r.route.None? {
        var direct := if r.route.Some? then r.route.value else r.recipient.value;
        balance := balance[direct := (if direct in balance then balance[direct] else 0) + quantity];
        Send(CreditNotice(direct, r.recipient.value, quantity, r.from));
        return;
      }
      if r.route == token {
        Send(TransferMail(token.value, r.recipient.value, quantity));
        return;
      }
      Send(CreditNotice(r.route.value, r.recipient.value, quantity, r.from));
    }

    method RegisterPeer(from: Id, validates: bool) returns (status: Status)
      modifies this
      ensures status.Ok? <==> token.None? || Some(from) == token || validates
      ensures View() == if status.Ok? && from !in old(ledgers) then old(View()).(ledgers := old(ledgers)[from := 0]) else old(View())
    {
      if !(token.None? || Some(from) == token || validates) {
        return Error;
      }
      if from !in ledgers {
        ledgers := ledgers[from := 0];
      }
      return Ok;
    }

    method CreditNoticeReceived(r: Request, validates: bool)
      modifies this
      ensures View() == AfterCreditNotice(old(View()), r, validates)
    {
      outbox := [];
      if token.None? || r.recipient.None? || r.quantity.None? {
        return;
      }
      if Some(r.from) != token && r.from !in ledgers {
        var status := RegisterPeer(r.from, validates);
        if status.Error? {
          return;
        }
      }
      var recipient := r.recipient.value;
      balance := balance[recipient := (if recipient in balance then balance[recipient] else 0) + r.quantity.value];
    }

    method Register(from: Id, validates: bool)
      modifies this
      ensures View() == AfterRegister(old(View()), from, validates)
    {
      outbox := [];
      if from in ledgers {
        return;
      }
      var status := RegisterPeer(from, validates);
      if status.Ok? {
        Send(RegisterMail(from));
      }
    }
  }
}

/** The escrow actions of the token ledger (scripts/hyper-token-p4.lua). */
module Ledger {
  import opened MapSum
  import opened Options

  type Account = string
  type ReservationId = string

  datatype Status = Reserved | Released | Refunded

  datatype Reservation = Reservation(status: Status, account: Account, recipient: Account, quantity: int)

  datatype State = State(balance: map<Account, int>, reservations: map<ReservationId, Reservation>)

  /** `Crashed` is a Lua error: a charge without a recipient assigns to the balance of nil. */
  datatype Reply = Ok | Unauthorized | MissingFields | Crashed | AlreadyExists | InsufficientFunds | NotReleasable | NotRefundable

  /** The actions, with the fields of their requests that may be absent. */
  datatype Action =
    | Charge(account: Option<Account>, recipient: Option<Account>, quantity: Option<int>)
    | Reserve(id: Option<ReservationId>, reserveAccount: Option<Account>, reserveRecipient: Option<Account>, reserveQuantity: Option<int>)
    | Release(releaseId: ReservationId, newRecipient: Option<Account>)
    | Refund(refundId: ReservationId)

  //////////////////////////////////////////////////////////////////////////////
  // Specification functions
  //////////////////////////////////////////////////////////////////////////////

  function Balance(s: State, a: Account): int { At(s.balance, a) }

  function Credit(s: State, a: Account, amount: int): State {
    s.(balance := s.balance[a := Balance(s, a) + amount])
  }

  function Quantity(r: Reservation): int { if r.status.Reserved? then r.quantity else 0 }

  /** The quantities still in escrow. */
  function Escrowed(s: State): map<ReservationId, int> {
    map id | id in s.reservations :: Quantity(s.reservations[id])
  }

  /** All money in the ledger: balances and escrows. */
  ghost function Total(s: State): int { Sum(s.balance) + Sum(Escrowed(s)) }

  function IsReserved(s: State, id: ReservationId): bool {
    id in s.reservations && s.reservations[id].status.Reserved?
  }

  function AfterReserve(s: State, id: ReservationId, account: Account, recipient: Account, quantity: int): State {
    Credit(s, account, -quantity).(reservations := s.reservations[id := Reservation(Reserved, account, recipient, quantity)])
  }

  function AfterRelease(s: State, id: ReservationId, newRecipient: Option<Account>): State
    requires id in s.reservations
  {
    var r := s.reservations[id];
    var recipient := if newRecipient.Some? then newRecipient.value else r.recipient;
    Credit(s, recipient, r.quantity).(reservations := s.reservations[id := r.(status := Released, recipient := recipient)])
  }

  function AfterRefund(s: State, id: ReservationId): State
    requires id in s.reservations
  {
    var r := s.reservations[id];
    Credit(s, r.account, r.quantity).(reservations := s.reservations[id := r.(status := Refunded)])
  }

  /** What an authorised action answers. */
  function Answer(s: State, action: Action): Reply {
    match action
    case Charge(account, recipient, quantity) =>
      if account.None? || quantity.None? then MissingFields else if recipient.None? then Crashed else Ok
    case Reserve(id, account, recipient, quantity) =>
      if id.None? || account.None? || recipient.None? || quantity.None? then MissingFields
      else if id.value in s.reservations then AlreadyExists
      else if Balance(s, account.value) < quantity.value then InsufficientFunds
      else Ok
    case Release(id, _) =>
      if IsReserved(s, id) || (id in s.reservations && s.reservations[id].status.Released?) then Ok else NotReleasable
    case Refund(id) =>
      if IsReserved(s, id) || (id in s.reservations && s.reservations[id].status.Refunded?) then Ok else NotRefundable
  }

  /** The state after an authorised action; a failing action changes nothing. */
  function Apply(s: State, action: Action): State {
    if !Answer(s, action).Ok? then s
    else
      match action
      case Charge(account, recipient, quantity) => Credit(Credit(s, account.value, -quantity.value), recipient.value, quantity.value)
      case Reserve(id, account, recipient, quantity) => AfterReserve(s, id.value, account.value, recipient.value, quantity.value)
      case Release(id, newRecipient) => if IsReserved(s, id) then AfterRelease(s, id, newRecipient) else s
      case Refund(id) => if IsReserved(s, id) then AfterRefund(s, id) else s
  }

  function Run(s: State, actions: seq<Action>): State
    decreases actions
  {
    if actions == [] then s else Run(Apply(s, actions[0]), actions[1..])
  }

  //////////////////////////////////////////////////////////////////////////////
  // The ledger process
  //////////////////////////////////////////////////////////////////////////////

  /** `authorized` stands for the admin check and the request validation. */
  class TokenLedger {
    var balance: map<Account, int>
    var reservations: map<ReservationId, Reservation>

    ghost function View(): State
      reads this
    {
      State(balance, reservations)
    }

    constructor (initial: map<Account, int>)
      ensures View() == State(initial, map[])
    {
      balance, reservations := initial, map[];
    }

    method ChargeAccount(
      authorized: bool, account: Option<Account>, recipient: Option<Account>, quantity: Option<int>
    ) returns (reply: Reply)
      modifies this
      ensures reply == if authorized then Answer(old(View()), Charge(account, recipient, quantity)) else Unauthorized
      ensures View() == if authorized then Apply(old(View()), Charge(account, recipient, quantity)) else old(View())
    {
      if !authorized {
        return Unauthorized;
      }
      if account.None? || quantity.None? {
        return MissingFields;
      }
      if recipient.None? {
        return Crashed;
      }
      // The source may go into debt.
      balance := balance[account.value := (if account.value in balance then balance[account.value] else 0) - quantity.value];
      balance := balance[recipient.value := (if recipient.value in balance then balance[recipient.value] else 0) + quantity.value];
      return Ok;
    }

    method ReserveFunds(
      authorized: bool, id: Option<ReservationId>, account: Option<Account>, recipient: Option<Account>, quantity: Option<int>
    ) returns (reply: Reply)
      modifies this
      ensures reply == if authorized then Answer(old(View()), Reserve(id, account, recipient, quantity)) else Unauthorized
      ensures View() == if authorized then Apply(old(View()), Reserve(id, account, recipient, quantity)) else old(View())
    {
      if !authorized {
        return Unauthorized;
      }
      if id.None? || account.None? || recipient.None? || quantity.None? {
        return MissingFields;
      }
      if id.value in reservations {
        return AlreadyExists;
      }
      var available := if account.value in balance then balance[account.value] else 0;
      if available < quantity.value {
        return InsufficientFunds;
      }
      balance := balance[account.value := available - quantity.value];
      reservations := reservations[id.value := Reservation(Reserved, account.value, recipient.value, quantity.value)];
      return Ok;
    }

    method ReleaseFunds(authorized: bool, id: ReservationId, newRecipient: Option<Account>) returns (reply: Reply)
      modifies this
      ensures reply == if authorized then Answer(old(View()), Release(id, newRecipient)) else Unauthorized
      ensures View() == if authorized then Apply(old(View()), Release(id, newRecipient)) else old(View())
    {
      if !authorized {
        return Unauthorized;
      }
      if id !in reservations || !reservations[id].status.Reserved? {
        return if id in reservations && reservations[id].status.Released? then Ok else NotReleasable;
      }
      var r := reservations[id];
      var recipient := if newRecipient.Some? then newRecipient.value else r.recipient;
      balance := balance[recipient := (if recipient in balance then balance[recipient] else 0) + r.quantity];
      reservations := reservations[id := r.(status := Released, recipient := recipient)];
      return Ok;
    }

    method RefundFunds(authorized: bool, id: ReservationId) returns (reply: Reply)
      modifies this
      ensures reply == if authorized then Answer(old(View()), Refund(id)) else Unauthorized
      ensures View() == if authorized then Apply(old(View()), Refund(id)) else old(View())
    {
      if !authorized {
        return Unauthorized;
      }
      if id !in reservations || !reservations[id].status.Reserved? {
        return if id in reservations && reservations[id].status.Refunded? then Ok else NotRefundable;
      }
      var r := reservations[id];
      balance := balance[r.account := (if r.account in balance then balance[r.account] else 0) + r.quantity];
      reservations := reservations[id := r.(status := Refunded)];
      return Ok;
    }
  }

  //////////////////////////////////////////////////////////////////////////////
  // Conservation and the life of a reservation
  //////////////////////////////////////////////////////////////////////////////

  lemma CreditTotal(s: State, a: Account, amount: int)
    ensures Total(Credit(s, a, amount)) == Total(s) + amount
  {
    SumUpdate(s.balance, a, Balance(s, a) + amount);
  }

  lemma ReservationTotal(s: State, id: ReservationId, r: Reservation)
    ensures
      Total(s.(reservations := s.reservations[id := r]))
      == Total(s) - At(Escrowed(s), id) + Quantity(r)
  {
    var s' := s.(reservations := s.reservations[id := r]);
    SumUpdate(Escrowed(s), id, Quantity(r));
    assert Escrowed(s') == Escrowed(s)[id := Quantity(r)];
  }

  /** No action makes or loses money. */
  lemma ApplyConserves(s: State, action: Action)
    ensures Total(Apply(s, action)) == Total(s)
  {
    if Answer(s, action).Ok? {
      match action
      case Charge(account, recipient, quantity) =>
        var s1 := Credit(s, account.value, -quantity.value);
        CreditTotal(s, account.value, -quantity.value);
        CreditTotal(s1, recipient.value, quantity.value);
      case Reserve(id, account, recipient, quantity) =>
        var s1 := Credit(s, account.value, -quantity.value);
        CreditTotal(s, account.value, -quantity.value);
        ReservationTotal(s1, id.value, Reservation(Reserved, account.value, recipient.value, quantity.value));
      case Release(id, newRecipient) =>
        if IsReserved(s, id) {
          var r := s.reservations[id];
          var recipient := if newRecipient.Some? then newRecipient.value else r.recipient;
          CreditTotal(s, recipient, r.quantity);
          ReservationTotal(Credit(s, recipient, r.quantity), id, r.(status := Released, recipient := recipient));
        }
      case Refund(id) =>
        if IsReserved(s, id) {
          var r := s.reservations[id];
          CreditTotal(s, r.account, r.quantity);
          ReservationTotal(Credit(s, r.account, r.quantity), id, r.(status := Refunded));
        }
    }
  }

  lemma {:induction false} RunConserves(s: State, actions: seq<Action>)
    ensures Total(Run(s, actions)) == Total(s)
    decreases actions
  {
    if actions != [] {
      ApplyConserves(s, actions[0]);
      RunConserves(Apply(s, actions[0]), actions[1..]);
    }
  }

  /** What may become of a reservation: it stays, or leaves escrow once; who paid and how much
      never change, and the recipient only at its release. */
  ghost predicate Evolves(r: Reservation, r': Reservation) {
    && r'.account == r.account && r'.quantity == r.quantity && (r'.recipient == r.recipient || r'.status.Released?)
    && (r' == r || (r.status.Reserved? && !r'.status.Reserved?))
  }

  ghost predicate AllEvolve(s: State, s': State) {
    forall id | id in s.reservations :: id in s'.reservations && Evolves(s.reservations[id], s'.reservations[id])
  }

  lemma {:induction false} RunEvolves(s: State, actions: seq<Action>)
    ensures AllEvolve(s, Run(s, actions))
    decreases actions
  {
    if actions != [] {
      var s1 := Apply(s, actions[0]);
      assert AllEvolve(s, s1);
      RunEvolves(s1, actions[1..]);
    }
  }

  /** A settled reservation is settled for good, and no later request can use its ID again. */
  lemma SettledForGood(s: State, actions: seq<Action>, id: ReservationId, account: Account, recipient: Account, quantity: int)
    requires id in s.reservations && !s.reservations[id].status.Reserved?
    ensures
      var s' := Run(s, actions);
      && id in s'.reservations && s'.reservations[id] == s.reservations[id]
      && Answer(s', Reserve(Some(id), Some(account), Some(recipient), Some(quantity))) == AlreadyExists
  {
    RunEvolves(s, actions);
  }

  /** After a release, later releases answer the same and refunds fail, whatever happened in
      between, and neither moves money; and the other way round after a refund. */
  lemma SettleOnce(s: State, id: ReservationId, actions: seq<Action>, r1: Option<Account>, r2: Option<Account>)
    requires IsReserved(s, id)
    ensures
      var released := Run(Apply(s, Release(id, r1)), actions);
      && Answer(released, Release(id, r2)) == Ok && Apply(released, Release(id, r2)) == released
      && Answer(released, Refund(id)) == NotRefundable && Apply(released, Refund(id)) == released
    ensures
      var refunded := Run(Apply(s, Refund(id)), actions);
      && Answer(refunded, Refund(id)) == Ok && Apply(refunded, Refund(id)) == refunded
      && Answer(refunded, Release(id, r2)) == NotReleasable && Apply(refunded, Release(id, r2)) == refunded
  {
    RunEvolves(Apply(s, Release(id, r1)), actions);
    RunEvolves(Apply(s, Refund(id)), actions);
  }

  /** A refund undoes its reservation. */
  lemma RefundUndoesReserve(s: State, id: ReservationId, account: Account, recipient: Account, quantity: int, other: Account)
    requires Answer(s, Reserve(Some(id), Some(account), Some(recipient), Some(quantity))) == Ok
    ensures
      var s' := Apply(Apply(s, Reserve(Some(id), Some(account), Some(recipient), Some(quantity))), Refund(id));
      Balance(s', other) == Balance(s, other)
  {
  }

  /** Reserving and releasing is a transfer from payer to recipient. */
  lemma ReserveReleaseTransfers(s: State, id: ReservationId, account: Account, recipient: Account, quantity: int, other: Account)
    requires Answer(s, Reserve(Some(id), Some(account), Some(recipient), Some(quantity))) == Ok
    ensures
      var s' := Apply(Apply(s, Reserve(Some(id), Some(account), Some(recipient), Some(quantity))), Release(id, None));
      Balance(s', other)
      == Balance(s, other) - (if other == account then quantity else 0) + (if other == recipient then quantity else 0)
  {
  }

  //////////////////////////////////////////////////////////////////////////////
  // Who pays and who is paid
  //////////////////////////////////////////////////////////////////////////////

  /** What is added to the balance of `other` when `a` is paid. */
  function Share(a: Account, quantity: int, other: Account): int { if a == other then quantity else 0 }

  /** A charge is taken from the account, even into debt, and given to the recipient. */
  lemma ChargeMoves(s: State, account: Account, recipient: Account, quantity: int, other: Account)
    ensures
      var (action, paid) := (Charge(Some(account), Some(recipient), Some(quantity)), Share(recipient, quantity, other));
      && Answer(s, action) == Ok && Apply(s, action).reservations == s.reservations
      && Balance(Apply(s, action), other) == Balance(s, other) - Share(account, quantity, other) + paid
  {
  }

  /** A reservation is refused if its ID was ever used, or else if the balance is less than the quantity;
      otherwise the quantity is taken from the account and kept under the ID. */
  lemma ReserveExactly(s: State, id: ReservationId, account: Account, recipient: Account, quantity: int, other: Account)
    ensures
      var action := Reserve(Some(id), Some(account), Some(recipient), Some(quantity));
      var s' := Apply(s, action);
      if id in s.reservations then Answer(s, action) == AlreadyExists && s' == s
      else if Balance(s, account) < quantity then Answer(s, action) == InsufficientFunds && s' == s
      else
        && Answer(s, action) == Ok
        && s'.reservations == s.reservations[id := Reservation(Reserved, account, recipient, quantity)]
        && Balance(s', other) == Balance(s, other) - Share(account, quantity, other)
  {
  }

  /** A release pays the recipient it names, and otherwise the one of the reservation; it does so once. */
  lemma ReleaseExactly(s: State, id: ReservationId, newRecipient: Option<Account>, other: Account)
    ensures
      var (action, s') := (Release(id, newRecipient), Apply(s, Release(id, newRecipient)));
      if id !in s.reservations || s.reservations[id].status == Refunded then Answer(s, action) == NotReleasable && s' == s
      else if s.reservations[id].status == Released then Answer(s, action) == Ok && s' == s
      else
        var r := s.reservations[id];
        var recipient := match newRecipient case None => r.recipient case Some(a) => a;
        && Answer(s, action) == Ok
        && s'.reservations == s.reservations[id := Reservation(Released, r.account, recipient, r.quantity)]
        && Balance(s', other) == Balance(s, other) + Share(recipient, r.quantity, other)
  {
  }

  /** A refund pays the account that was reserved from, once. */
  lemma RefundExactly(s: State, id: ReservationId, other: Account)
    ensures
      var (action, s') := (Refund(id), Apply(s, Refund(id)));
      if id !in s.reservations || s.reservations[id].status == Released then Answer(s, action) == NotRefundable && s' == s
      else if s.reservations[id].status == Refunded then Answer(s, action) == Ok && s' == s
      else
        var r := s.reservations[id];
        && Answer(s, action) == Ok
        && s'.reservations == s.reservations[id := Reservation(Refunded, r.account, r.recipient, r.quantity)]
        && Balance(s', other) == Balance(s, other) + Share(r.account, r.quantity, other)
  {
  }

  /** Requests that lack a field change nothing. */
  lemma IncompleteChangesNothing(
    s: State, id: Option<ReservationId>, account: Option<Account>, recipient: Option<Account>, quantity: Option<int>
  )
    ensures account == None || quantity == None ==> Answer(s, Charge(account, recipient, quantity)) == MissingFields
    ensures account != None && quantity != None && recipient == None ==> Answer(s, Charge(account, None, quantity)) == Crashed
    ensures
      id == None || account == None || recipient == None || quantity == None ==>
        Answer(s, Reserve(id, account, recipient, quantity)) == MissingFields
    ensures !Answer(s, Charge(account, recipient, quantity)).Ok? ==> Apply(s, Charge(account, recipient, quantity)) == s
    ensures
      !Answer(s, Reserve(id, account, recipient, quantity)).Ok? ==> Apply(s, Reserve(id, account, recipient, quantity)) == s
  {
  }
}

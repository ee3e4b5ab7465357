/** The process that keeps key pairs ready (src/ar_wallet.erl:62-106). */
module WalletPool {
  import opened Options

  const TARGET: nat := 6

  datatype Message<W, C> = Request(client: C) | Generated(wallet: W)

  datatype Reply<W, C> = Reply(client: C, wallet: W)

  datatype State<W, C> = State(wallets: seq<W>, waiters: seq<C>, inFlight: int)

  //////////////////////////////////////////////////////////////////////////////
  // Specification
  //////////////////////////////////////////////////////////////////////////////

  function Needed<W, C>(s: State<W, C>): nat {
    var missing := TARGET + |s.waiters| - (|s.wallets| + s.inFlight);
    if missing > 0 then missing else 0
  }

  /** The state in which the process waits: generators have been started for all that is missing. */
  function Waiting<W, C>(s: State<W, C>): State<W, C> {
    s.(inFlight := s.inFlight + Needed(s))
  }

  function Handle<W, C>(s: State<W, C>, m: Message<W, C>): (State<W, C>, Option<Reply<W, C>>) {
    match m
    case Request(client) =>
      if s.wallets == [] then (s.(waiters := s.waiters + [client]), None)
      else (s.(wallets := s.wallets[1..]), Some(Reply(client, s.wallets[0])))
    case Generated(wallet) =>
      if s.waiters == [] then (s.(wallets := s.wallets + [wallet], inFlight := s.inFlight - 1), None)
      else (s.(waiters := s.waiters[1..], inFlight := s.inFlight - 1), Some(Reply(s.waiters[0], wallet)))
  }

  /** The waiting state after the messages, and all replies. */
  function Run<W, C>(s: State<W, C>, ms: seq<Message<W, C>>): (State<W, C>, seq<Reply<W, C>>)
    decreases |ms|
  {
    if ms == [] then (Waiting(s), [])
    else
      var n := |ms| - 1;
      var (before, replies) := Run(s, ms[..n]);
      var (after, reply) := Handle(before, ms[n]);
      (Waiting(after), replies + if reply.Some? then [reply.value] else [])
  }

  //////////////////////////////////////////////////////////////////////////////
  // The process
  //////////////////////////////////////////////////////////////////////////////

  class Pool<W, C> {
    var wallets: seq<W>
    var waiters: seq<C>
    var inFlight: int

    function Contents(): State<W, C>
      reads this
    {
      State(wallets, waiters, inFlight)
    }

    constructor ()
      ensures Contents() == State([], [], 0)
    {
      wallets, waiters, inFlight := [], [], 0;
    }

    /** Starts a generator for all that is missing; `started` is how many. */
    method SpawnWorkers() returns (started: nat)
      modifies this`inFlight
      ensures Contents() == Waiting(old(Contents())) && started == Needed(old(Contents()))
    {
      var desired := TARGET + |waiters|;
      var available := |wallets| + inFlight;
      started := if desired > available then desired - available else 0;
      inFlight := inFlight + started;
    }

    /** One turn of the loop. */
    method Turn(m: Message<W, C>) returns (started: nat, reply: Option<Reply<W, C>>)
      modifies this
      ensures (Contents(), reply) == Handle(Waiting(old(Contents())), m)
      ensures started == Needed(old(Contents()))
    {
      started := SpawnWorkers();
      reply := None;
      match m
      case Request(client) =>
        if wallets != [] {
          reply := Some(Reply(client, wallets[0]));
          wallets := wallets[1..];
        } else {
          waiters := waiters + [client];
        }
      case Generated(wallet) =>
        if waiters != [] {
          reply := Some(Reply(waiters[0], wallet));
          waiters := waiters[1..];
        } else {
          wallets := wallets + [wallet];
        }
        inFlight := inFlight - 1;
    }
  }

  //////////////////////////////////////////////////////////////////////////////
  // Every run
  //////////////////////////////////////////////////////////////////////////////

  function Clients<W, C>(ms: seq<Message<W, C>>): seq<C>
    decreases |ms|
  {
    if ms == [] then []
    else
      var n := |ms| - 1;
      Clients(ms[..n]) + if ms[n].Request? then [ms[n].client] else []
  }

  function Wallets<W, C>(ms: seq<Message<W, C>>): seq<W>
    decreases |ms|
  {
    if ms == [] then []
    else
      var n := |ms| - 1;
      Wallets(ms[..n]) + if ms[n].Generated? then [ms[n].wallet] else []
  }

  function Paired<W, C>(clients: seq<C>, wallets: seq<W>): (replies: seq<Reply<W, C>>)
    ensures |replies| == if |clients| < |wallets| then |clients| else |wallets|
    ensures forall k | 0 <= k < |replies| :: replies[k] == Reply(clients[k], wallets[k])
  {
    seq(if |clients| < |wallets| then |clients| else |wallets|,
      (k: nat) requires k < |clients| && k < |wallets| => Reply(clients[k], wallets[k]))
  }

  ghost predicate Matches<W, C>(s: State<W, C>, replies: seq<Reply<W, C>>, clients: seq<C>, wallets: seq<W>) {
    && replies == Paired(clients, wallets)
    && s.waiters == clients[|replies|..] && s.wallets == wallets[|replies|..]
    && |s.wallets| + s.inFlight == 6 + |s.waiters|
  }

  lemma MatchesStep<W, C>(s: State<W, C>, replies: seq<Reply<W, C>>, clients: seq<C>, wallets: seq<W>, m: Message<W, C>)
    requires Matches(s, replies, clients, wallets)
    ensures
      var (after, reply) := Handle(s, m);
      Matches(Waiting(after), replies + (if reply.Some? then [reply.value] else []),
        clients + (if m.Request? then [m.client] else []), wallets + (if m.Generated? then [m.wallet] else []))
  {
    match m
    case Request(client) =>
      assert wallets + [] == wallets;
      if s.wallets != [] {
        assert Paired(clients + [client], wallets) == replies + [Reply(client, s.wallets[0])];
      } else {
        assert Paired(clients + [client], wallets) == replies + [];
      }
    case Generated(wallet) =>
      assert clients + [] == clients;
      if s.waiters != [] {
        assert Paired(clients, wallets + [wallet]) == replies + [Reply(s.waiters[0], wallet)];
      } else {
        assert Paired(clients, wallets + [wallet]) == replies + [];
      }
  }

  /** Whatever the order of messages, the k-th request is answered with the k-th wallet generated and
      with no other, first come, first served; what is left over on one side waits, so wallets and
      waiters are never both there; and stored wallets and generators at work are always six
      more than the waiters. */
  lemma {:induction false} RunPairs<W, C>(ms: seq<Message<W, C>>)
    ensures
      var (s, replies) := Run(State([], [], 0), ms);
      Matches(s, replies, Clients(ms), Wallets(ms)) && (s.wallets == [] || s.waiters == [])
    decreases |ms|
  {
    if ms != [] {
      var n := |ms| - 1;
      RunPairs(ms[..n]);
      var (before, replies) := Run(State([], [], 0), ms[..n]);
      MatchesStep(before, replies, Clients(ms[..n]), Wallets(ms[..n]), ms[n]);
    }
  }
}

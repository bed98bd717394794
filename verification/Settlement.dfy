/** The gateway's settlement state machine: which contracts are taken on, paid,
    refunded and funded, under any interleaving of requests and events. */
module Settlement {
  import opened Ordered

  type Hash = nat
  type OperationId = nat
  type Preimage = nat

  /** An outgoing contract, as far as the checks and the settlement read it. */
  datatype Outgoing = Outgoing(hash: Hash, invoice: nat, amount: nat, fee: nat)

  /** An invoice: its digest, and whether its payee is this gateway's node. */
  datatype Invoice = Invoice(digest: nat, hash: Hash, amount: Option<nat>, ours: bool)

  /** `valid` is that the contract is keyed to this gateway and confirmed by
      its mint under its own id. */
  datatype SendRequest = SendRequest(
    operation: OperationId,
    contract: Outgoing,
    outpoint: nat,
    invoice: Invoice,
    valid: bool
  )

  datatype OutgoingRow = OutgoingRow(contract: Outgoing, outpoint: nat, invoice: Invoice)

  datatype Incoming = Incoming(preimage: Preimage, amount: nat, fee: nat)

  datatype Outcome = Claimed(preimage: Preimage) | Forfeited

  /** The claim of an inbound payment. */
  datatype InboundClaim = InboundClaim(preimage: Preimage, amount: nat)

  /** The hash preimages are checked by, and the gateway's fee schedules. */
  datatype Config = Config(hashOf: Preimage -> Hash, sendFee: nat -> nat, receiveFee: nat -> nat)

  /** The gateway's tables, what the lightning node holds, and what has been
      written for the mints and told the lightning node: outcomes per operation,
      contracts funded per hash, and inbound payments claimed per hash. */
  datatype State = State(
    outgoing: map<OperationId, OutgoingRow>,
    paymentHash: map<Hash, OperationId>,
    incoming: map<Hash, Incoming>,
    events: set<Hash>,
    issued: set<Hash>,
    sent: set<Hash>,
    outcomes: map<OperationId, seq<Outcome>>,
    fundings: map<Hash, seq<Incoming>>,
    claims: map<Hash, seq<InboundClaim>>
  ) {
    function OutcomesOf(op: OperationId): seq<Outcome> {
      if op in outcomes then outcomes[op] else []
    }

    function FundingsOf(hash: Hash): seq<Incoming> {
      if hash in fundings then fundings[hash] else []
    }

    function ClaimsOf(hash: Hash): seq<InboundClaim> {
      if hash in claims then claims[hash] else []
    }

    function Finalize(op: OperationId, outcome: Outcome): State {
      this.(outcomes := outcomes[op := OutcomesOf(op) + [outcome]])
    }

    /** The registered contract is funded and no longer registered. */
    function Fund(hash: Hash): State
      requires hash in incoming
    {
      this.(incoming := Unrow(incoming, hash), fundings := fundings[hash := FundingsOf(hash) + [incoming[hash]]])
    }

    function Claim(hash: Hash, claim: InboundClaim): State {
      this.(claims := claims[hash := ClaimsOf(hash) + [claim]])
    }

    /** The lightning node holds a payment for the hash. */
    predicate Holds(hash: Hash) {
      hash in issued || hash in sent
    }
  }

  const Empty := State(map[], map[], map[], {}, {}, {}, map[], map[], map[])

  function Unrow(rows: map<Hash, Incoming>, hash: Hash): map<Hash, Incoming> {
    map h | h in rows && h != hash :: rows[h]
  }

  // ----- what each request and event does -----

  /** The contract is exactly for the invoice and pays the gateway's fee. */
  predicate Priced(config: Config, contract: Outgoing, invoice: Invoice) {
    && contract.invoice == invoice.digest
    && invoice.amount.Some?
    && invoice.hash == contract.hash
    && contract.amount == invoice.amount.value
    && contract.fee == config.sendFee(contract.amount)
  }

  function Take(s: State, request: SendRequest): State {
    var row := OutgoingRow(request.contract, request.outpoint, request.invoice);
    s.(outgoing := s.outgoing[request.operation := row])
  }

  /** The contract's hash gets its one payment attempt. */
  function Attempt(s: State, request: SendRequest): State {
    s.(paymentHash := s.paymentHash[request.contract.hash := request.operation])
  }

  /** The payment attempt. `accepted` is the lightning node's answer to a send,
      `funds` the mint client's to a funding. Not `ok` means the sender is to be
      refunded. */
  function StartPayment(config: Config, s: State, request: SendRequest, accepted: bool, funds: bool): (State, bool) {
    var hash := request.contract.hash;
    if !Priced(config, request.contract, request.invoice) then (s, false)
    else if !request.invoice.ours then
      if hash in s.paymentHash || s.Holds(hash) then (s, false)
      else if accepted then (HandPay(Attempt(s, request), hash), true)
      else (Attempt(s, request), false)
    else if hash !in s.incoming || s.incoming[hash].amount != request.contract.amount || !funds then (s, false)
    else (Swap(s, request), true)
  }

  /** A swap funds the registered contract and claims the outgoing one with its
      preimage. */
  function Swap(s: State, request: SendRequest): State
    requires request.contract.hash in s.incoming
  {
    var hash := request.contract.hash;
    s.Fund(hash).Finalize(request.operation, Claimed(s.incoming[hash].preimage))
  }

  function Send(config: Config, s: State, request: SendRequest, accepted: bool, funds: bool): State {
    if !request.valid || request.operation in s.outgoing then s else
      var (t, ok) := StartPayment(config, Take(s, request), request, accepted, funds);
      if ok then t else t.Finalize(request.operation, Forfeited)
  }

  predicate Registrable(config: Config, s: State, contract: Incoming) {
    && contract.fee == config.receiveFee(contract.amount) && contract.fee <= contract.amount
    && config.hashOf(contract.preimage) !in s.paymentHash && !s.Holds(config.hashOf(contract.preimage))
  }

  function Receive(config: Config, s: State, contract: Incoming, mintAdded: bool, issues: bool): State {
    if !mintAdded || !Registrable(config, s, contract) || !issues then s else
      var hash := config.hashOf(contract.preimage);
      s.(incoming := s.incoming[hash := contract], issued := s.issued + {hash})
  }

  /** An inbound payment can be claimed. */
  function Claimable(s: State, hash: Hash, amount: nat, funds: bool): State {
    if hash in s.events then s else
      var marked := s.(events := s.events + {hash});
      if hash !in s.incoming || s.incoming[hash].amount != amount || !funds then marked
      else marked.Fund(hash).Claim(hash, InboundClaim(s.incoming[hash].preimage, amount))
  }

  /** The contract a lightning outcome settles. */
  function OutgoingContract(s: State, hash: Hash): Option<OperationId> {
    if hash in s.paymentHash && s.paymentHash[hash] in s.outgoing then Some(s.paymentHash[hash]) else None
  }

  /** An outbound payment succeeded with a preimage, or failed. */
  function Settled(s: State, hash: Hash, outcome: Outcome): State {
    if hash in s.events then s else
      var marked := s.(events := s.events + {hash});
      match OutgoingContract(s, hash)
      case Some(op) => marked.Finalize(op, outcome)
      case None => marked
  }

  /** The lightning node takes a payment on: asked by the gateway, or by the
      operator by hand. */
  function HandPay(s: State, hash: Hash): State {
    s.(sent := s.sent + {hash})
  }

  // ----- runs -----

  datatype Step =
    | SendStep(request: SendRequest, accepted: bool, funds: bool)
    | ReceiveStep(contract: Incoming, mintAdded: bool, issues: bool)
    | ClaimableStep(hash: Hash, amount: nat, funds: bool)
    | SucceededStep(hash: Hash, preimage: Preimage)
    | FailedStep(hash: Hash)
    | HandPayStep(hash: Hash)

  /** The lightning node reports outcomes only for payments it took on, with a
      preimage of the hash, inbound payments only for hashes issued, and pays
      no invoice of its own. */
  predicate Enabled(config: Config, s: State, step: Step) {
    match step
    case ClaimableStep(hash, _, _) => hash in s.issued
    case SucceededStep(hash, preimage) => hash in s.sent && config.hashOf(preimage) == hash
    case FailedStep(hash) => hash in s.sent
    case HandPayStep(hash) => hash !in s.issued
    case _ => true
  }

  function Next(config: Config, s: State, step: Step): State {
    match step
    case SendStep(request, accepted, funds) => Send(config, s, request, accepted, funds)
    case ReceiveStep(contract, mintAdded, issues) => Receive(config, s, contract, mintAdded, issues)
    case ClaimableStep(hash, amount, funds) => Claimable(s, hash, amount, funds)
    case SucceededStep(hash, preimage) => Settled(s, hash, Claimed(preimage))
    case FailedStep(hash) => Settled(s, hash, Forfeited)
    case HandPayStep(hash) => HandPay(s, hash)
  }

  /** The gateway took the hash on, and the lightning node refused it. */
  predicate Refused(s: State, hash: Hash) {
    hash in s.paymentHash && hash !in s.sent
  }

  /** The operator pays no invoice by hand that the gateway was refused. */
  predicate Careful(s: State, step: Step) {
    step.HandPayStep? ==> !Refused(s, step.hash)
  }

  // ----- what every step keeps about outcomes -----

  /** A payment is under way for the contract and not yet reported on. */
  predicate UnderWay(s: State, op: OperationId) {
    && op in s.outgoing
    && var hash := s.outgoing[op].contract.hash;
       hash in s.paymentHash && s.paymentHash[hash] == op && hash in s.sent && hash !in s.events
  }

  /** Every contract taken on has exactly one outcome, or its payment is still
      under way and it has none. */
  predicate OutcomeDue(s: State, op: OperationId) {
    if op !in s.outgoing || UnderWay(s, op) then s.OutcomesOf(op) == [] else |s.OutcomesOf(op)| == 1
  }

  /** A hash is taken on for one priced contract, and never issued. */
  predicate Attempted(config: Config, s: State, hash: Hash) {
    hash in s.paymentHash ==>
      && s.paymentHash[hash] in s.outgoing && hash !in s.issued
      && var row := s.outgoing[s.paymentHash[hash]];
         row.contract.hash == hash && Priced(config, row.contract, row.invoice)
  }

  /** A claim carries a preimage of the hash of its priced contract. */
  predicate RightClaim(config: Config, s: State, op: OperationId) {
    s.OutcomesOf(op) != [] && s.OutcomesOf(op)[0].Claimed? ==>
      && op in s.outgoing && Priced(config, s.outgoing[op].contract, s.outgoing[op].invoice)
      && config.hashOf(s.OutcomesOf(op)[0].preimage) == s.outgoing[op].contract.hash
  }

  /** A registered contract is unfunded and its hash issued; a funded one is
      funded once, and its inbound payment claimed at most once, with its
      preimage and for its amount. */
  predicate FundedOnce(config: Config, s: State, hash: Hash) {
    && (hash in s.incoming ==> Registered(config, s, hash))
    && (s.FundingsOf(hash) == [] ==> s.ClaimsOf(hash) == [])
    && (s.FundingsOf(hash) != [] ==> Funded(config, s, hash))
  }

  predicate Registered(config: Config, s: State, hash: Hash)
    requires hash in s.incoming
  {
    hash in s.issued && s.FundingsOf(hash) == [] && config.hashOf(s.incoming[hash].preimage) == hash
  }

  predicate Funded(config: Config, s: State, hash: Hash)
    requires s.FundingsOf(hash) != []
  {
    var contract := s.FundingsOf(hash)[0];
    && hash in s.issued && s.FundingsOf(hash) == [contract] && config.hashOf(contract.preimage) == hash
    && (s.ClaimsOf(hash) == [] || s.ClaimsOf(hash) == [InboundClaim(contract.preimage, contract.amount)])
  }

  ghost predicate Inv(config: Config, s: State) {
    && (forall op :: OutcomeDue(s, op))
    && (forall op :: RightClaim(config, s, op))
    && (forall hash :: Attempted(config, s, hash))
    && (forall hash :: FundedOnce(config, s, hash))
    && s.issued !! s.sent && s.events <= s.issued + s.sent
  }

  // ----- what every step keeps about claims -----

  /** The outgoing contract over `hash` was claimed. */
  predicate ClaimedOver(s: State, op: OperationId, hash: Hash) {
    && op in s.outgoing && s.outgoing[op].contract.hash == hash
    && s.OutcomesOf(op) != [] && s.OutcomesOf(op)[0].Claimed?
  }

  /** The claim pays for the funding of the incoming contract of the same hash:
      for as much, with its preimage, and no inbound payment was claimed. */
  predicate SwappedWith(s: State, op: OperationId, hash: Hash) {
    && ClaimedOver(s, op, hash) && hash in s.issued
    && s.FundingsOf(hash) != [] && s.ClaimsOf(hash) == []
    && s.FundingsOf(hash)[0].amount == s.outgoing[op].contract.amount
    && s.OutcomesOf(op)[0] == Claimed(s.FundingsOf(hash)[0].preimage)
  }

  /** A claim rests on a swap, or on the payment its hash was taken on for. */
  predicate ClaimBacked(s: State, op: OperationId, hash: Hash) {
    ClaimedOver(s, op, hash) ==>
      SwappedWith(s, op, hash) || (hash in s.paymentHash && s.paymentHash[hash] == op)
  }

  predicate OneClaimed(s: State, a: OperationId, b: OperationId, hash: Hash) {
    ClaimedOver(s, a, hash) && ClaimedOver(s, b, hash) ==> a == b
  }

  /** A funding without an inbound claim is swapped with an outgoing contract. */
  ghost predicate FundingPaid(s: State, hash: Hash) {
    s.FundingsOf(hash) != [] && s.ClaimsOf(hash) == [] ==> exists op :: SwappedWith(s, op, hash)
  }

  ghost predicate Paired(s: State) {
    && (forall op, hash :: ClaimBacked(s, op, hash))
    && (forall a, b, hash :: OneClaimed(s, a, b, hash))
    && (forall hash :: FundingPaid(s, hash))
  }

  ghost predicate Kept(config: Config, s: State) {
    Inv(config, s) && Paired(s)
  }

  lemma InitialKept(config: Config)
    ensures Kept(config, Empty)
  {
  }

  /** Over an issued hash a claimed contract is a swap; over a registered one
      none is claimed. */
  lemma IssuedClaimsAreSwaps(config: Config, s: State, op: OperationId, hash: Hash)
    requires Kept(config, s) && ClaimedOver(s, op, hash) && hash in s.issued
    ensures SwappedWith(s, op, hash) && hash !in s.incoming
  {
    assert Attempted(config, s, hash) && FundedOnce(config, s, hash) && ClaimBacked(s, op, hash);
  }

  // ----- sends -----

  /** The contract is new, and its request confirmed. */
  ghost predicate Fresh(config: Config, s: State, request: SendRequest) {
    Kept(config, s) && request.valid && request.operation !in s.outgoing
  }

  /** Taken on and refunded at once. */
  function Refund(s: State, request: SendRequest): State {
    Take(s, request).Finalize(request.operation, Forfeited)
  }

  lemma RefundKeeps(config: Config, s: State, request: SendRequest)
    requires Fresh(config, s, request)
    ensures Kept(config, Refund(s, request))
  {
    var op, t := request.operation, Refund(s, request);
    assert OutcomeDue(s, op);
    forall o ensures OutcomeDue(t, o) && RightClaim(config, t, o) {
      assert OutcomeDue(s, o) && RightClaim(config, s, o);
      assert Attempted(config, s, request.contract.hash);
    }
    SameHashes(config, s, t, request);
    forall o, h ensures ClaimBacked(t, o, h) {
      assert ClaimBacked(s, o, h) && (ClaimedOver(t, o, h) <==> ClaimedOver(s, o, h));
    }
    SameClaims(s, t);
  }

  /** Neither fundings nor claims change, and the taken-on hashes stay right. */
  lemma SameHashes(config: Config, s: State, t: State, request: SendRequest)
    requires Fresh(config, s, request) && t.outgoing == Take(s, request).outgoing
    requires t.paymentHash == s.paymentHash && t.incoming == s.incoming && t.issued == s.issued
    requires t.fundings == s.fundings && t.claims == s.claims
    ensures forall h :: Attempted(config, t, h) && FundedOnce(config, t, h)
  {
    forall h ensures Attempted(config, t, h) && FundedOnce(config, t, h) {
      assert Attempted(config, s, h) && FundedOnce(config, s, h);
    }
  }

  /** Where the same contracts are claimed, on the same fundings, pairing holds. */
  lemma SameClaims(s: State, t: State)
    requires Paired(s) && forall o, h :: ClaimedOver(t, o, h) <==> ClaimedOver(s, o, h)
    requires forall o, h :: SwappedWith(s, o, h) ==> SwappedWith(t, o, h)
    requires forall h :: t.FundingsOf(h) == s.FundingsOf(h) && t.ClaimsOf(h) == s.ClaimsOf(h)
    ensures forall a, b, h :: OneClaimed(t, a, b, h)
    ensures forall h :: FundingPaid(t, h)
  {
    forall a, b, h ensures OneClaimed(t, a, b, h) {
      assert OneClaimed(s, a, b, h);
    }
    forall h ensures FundingPaid(t, h) {
      assert FundingPaid(s, h);
    }
  }

  /** The payment attempt: of the right price, over a hash never held. */
  ghost predicate Attemptable(config: Config, s: State, request: SendRequest) {
    && Fresh(config, s, request) && Priced(config, request.contract, request.invoice)
    && request.contract.hash !in s.paymentHash && !s.Holds(request.contract.hash)
  }

  /** Taken on, attempted, refused by the lightning node, and refunded. */
  function Refuse(s: State, request: SendRequest): State {
    Attempt(Take(s, request), request).Finalize(request.operation, Forfeited)
  }

  lemma RefuseKeeps(config: Config, s: State, request: SendRequest)
    requires Attemptable(config, s, request)
    ensures Kept(config, Refuse(s, request))
  {
    var op, t := request.operation, Refuse(s, request);
    assert OutcomeDue(s, op);
    forall o ensures OutcomeDue(t, o) && RightClaim(config, t, o) {
      assert OutcomeDue(s, o) && RightClaim(config, s, o);
    }
    AttemptHashes(config, s, t, request);
    forall o, h ensures ClaimBacked(t, o, h) {
      assert ClaimBacked(s, o, h) && (ClaimedOver(t, o, h) <==> ClaimedOver(s, o, h));
    }
    SameClaims(s, t);
  }

  /** Taken on, and its payment under way. */
  function Pay(s: State, request: SendRequest): State {
    HandPay(Attempt(Take(s, request), request), request.contract.hash)
  }

  lemma PayKeeps(config: Config, s: State, request: SendRequest)
    requires Attemptable(config, s, request)
    ensures Kept(config, Pay(s, request)) && UnderWay(Pay(s, request), request.operation)
  {
    var op, t := request.operation, Pay(s, request);
    assert OutcomeDue(s, op);
    assert UnderWay(t, op);
    forall o ensures OutcomeDue(t, o) && RightClaim(config, t, o) {
      assert OutcomeDue(s, o) && RightClaim(config, s, o);
    }
    AttemptHashes(config, s, t, request);
    forall o, h ensures ClaimBacked(t, o, h) {
      assert ClaimBacked(s, o, h) && (ClaimedOver(t, o, h) <==> ClaimedOver(s, o, h));
    }
    SameClaims(s, t);
  }

  /** An attempt takes its hash on for the contract, and nothing else changes
      about the hashes. */
  lemma AttemptHashes(config: Config, s: State, t: State, request: SendRequest)
    requires Attemptable(config, s, request) && t.outgoing == Take(s, request).outgoing
    requires t.paymentHash == s.paymentHash[request.contract.hash := request.operation]
    requires t.incoming == s.incoming && t.issued == s.issued && t.fundings == s.fundings && t.claims == s.claims
    ensures forall h :: Attempted(config, t, h) && FundedOnce(config, t, h)
  {
    forall h ensures Attempted(config, t, h) && FundedOnce(config, t, h) {
      assert Attempted(config, s, h) && FundedOnce(config, s, h);
    }
  }

  /** A swap, of the registered contract of as much over the same hash. */
  ghost predicate Swappable(config: Config, s: State, request: SendRequest) {
    && Fresh(config, s, request) && Priced(config, request.contract, request.invoice)
    && request.contract.hash in s.incoming && s.incoming[request.contract.hash].amount == request.contract.amount
  }

  lemma SwapKeeps(config: Config, s: State, request: SendRequest)
    requires Swappable(config, s, request)
    ensures Kept(config, Swap(Take(s, request), request))
  {
    var op, hash, t := request.operation, request.contract.hash, Swap(Take(s, request), request);
    assert OutcomeDue(s, op) && FundedOnce(config, s, hash) && Attempted(config, s, hash);
    forall o ensures OutcomeDue(t, o) && RightClaim(config, t, o) {
      assert OutcomeDue(s, o) && RightClaim(config, s, o);
    }
    forall h ensures Attempted(config, t, h) && FundedOnce(config, t, h) {
      assert Attempted(config, s, h) && FundedOnce(config, s, h);
    }
    SwapPairs(config, s, request);
  }

  /** No contract over the hash was claimed before the swap. */
  lemma SwapPairs(config: Config, s: State, request: SendRequest)
    requires Swappable(config, s, request)
    ensures Paired(Swap(Take(s, request), request))
  {
    var op, hash, t := request.operation, request.contract.hash, Swap(Take(s, request), request);
    assert FundedOnce(config, s, hash) && OutcomeDue(s, op);
    assert SwappedWith(t, op, hash);
    forall o, h ensures ClaimBacked(t, o, h) {
      assert ClaimBacked(s, o, h);
      NoneClaimed(config, s, o, hash);
    }
    forall a, b, h ensures OneClaimed(t, a, b, h) {
      assert OneClaimed(s, a, b, h);
      NoneClaimed(config, s, a, hash);
      NoneClaimed(config, s, b, hash);
    }
    forall h ensures FundingPaid(t, h) {
      if h != hash && s.FundingsOf(h) != [] && s.ClaimsOf(h) == [] {
        assert FundingPaid(s, h);
        var o :| SwappedWith(s, o, h);
        assert SwappedWith(t, o, h);
      }
    }
  }

  /** Over a registered hash no contract is claimed. */
  lemma NoneClaimed(config: Config, s: State, op: OperationId, hash: Hash)
    requires Kept(config, s) && hash in s.incoming
    ensures !ClaimedOver(s, op, hash)
  {
    assert FundedOnce(config, s, hash);
    if ClaimedOver(s, op, hash) {
      IssuedClaimsAreSwaps(config, s, op, hash);
    }
  }

  /** The four ways a new, confirmed contract is taken on. */
  lemma SendCases(config: Config, s: State, request: SendRequest, accepted: bool, funds: bool)
    requires Fresh(config, s, request)
    ensures var t := Send(config, s, request, accepted, funds);
      || t == Refund(s, request)
      || (Attemptable(config, s, request) && t == Refuse(s, request))
      || (Attemptable(config, s, request) && t == Pay(s, request))
      || (Swappable(config, s, request) && t == Swap(Take(s, request), request))
  {
  }

  lemma SendKeeps(config: Config, s: State, request: SendRequest, accepted: bool, funds: bool)
    requires Kept(config, s)
    ensures Kept(config, Send(config, s, request, accepted, funds))
  {
    if request.valid && request.operation !in s.outgoing {
      SendCases(config, s, request, accepted, funds);
      RefundKeeps(config, s, request);
      if Attemptable(config, s, request) {
        RefuseKeeps(config, s, request);
        PayKeeps(config, s, request);
      }
      if Swappable(config, s, request) {
        SwapKeeps(config, s, request);
      }
    }
  }

  // ----- the other steps -----

  lemma ReceiveKeeps(config: Config, s: State, contract: Incoming, mintAdded: bool, issues: bool)
    requires Kept(config, s)
    ensures Kept(config, Receive(config, s, contract, mintAdded, issues))
  {
    var t := Receive(config, s, contract, mintAdded, issues);
    forall op ensures OutcomeDue(t, op) && RightClaim(config, t, op) {
      assert OutcomeDue(s, op) && RightClaim(config, s, op);
    }
    forall h ensures Attempted(config, t, h) && FundedOnce(config, t, h) {
      assert Attempted(config, s, h) && FundedOnce(config, s, h);
    }
    forall o, h ensures ClaimBacked(t, o, h) {
      assert ClaimBacked(s, o, h) && (ClaimedOver(t, o, h) <==> ClaimedOver(s, o, h));
    }
    SameClaims(s, t);
  }

  /** The inbound payment of a registered contract of its amount. */
  ghost predicate Receivable(config: Config, s: State, hash: Hash, amount: nat) {
    Kept(config, s) && hash !in s.events && hash in s.incoming && s.incoming[hash].amount == amount
  }

  /** The inbound payment is funded and claimed. */
  function Redeem(s: State, hash: Hash): State
    requires hash in s.incoming
  {
    var claim := InboundClaim(s.incoming[hash].preimage, s.incoming[hash].amount);
    s.(events := s.events + {hash}).Fund(hash).Claim(hash, claim)
  }

  lemma RedeemKeeps(config: Config, s: State, hash: Hash, amount: nat)
    requires Receivable(config, s, hash, amount)
    ensures Kept(config, Redeem(s, hash))
  {
    var t := Redeem(s, hash);
    assert FundedOnce(config, s, hash) && Attempted(config, s, hash);
    forall op ensures OutcomeDue(t, op) && RightClaim(config, t, op) {
      assert OutcomeDue(s, op) && RightClaim(config, s, op);
    }
    forall h ensures Attempted(config, t, h) && FundedOnce(config, t, h) {
      assert Attempted(config, s, h) && FundedOnce(config, s, h);
    }
    forall o, h ensures ClaimBacked(t, o, h) {
      assert ClaimBacked(s, o, h);
      NoneClaimed(config, s, o, hash);
    }
    forall a, b, h ensures OneClaimed(t, a, b, h) {
      assert OneClaimed(s, a, b, h);
    }
    forall h ensures FundingPaid(t, h) {
      if t.FundingsOf(h) != [] && t.ClaimsOf(h) == [] {
        assert FundingPaid(s, h);
        var o :| SwappedWith(s, o, h);
        assert SwappedWith(t, o, h);
      }
    }
  }

  lemma ClaimableKeeps(config: Config, s: State, hash: Hash, amount: nat, funds: bool)
    requires Kept(config, s) && hash in s.issued
    ensures Kept(config, Claimable(s, hash, amount, funds))
  {
    assert Attempted(config, s, hash);
    if Receivable(config, s, hash, amount) && funds {
      RedeemKeeps(config, s, hash, amount);
    } else if hash !in s.events {
      MarkKeeps(config, s, hash);
    }
  }

  /** An event seen for a hash that is issued, or taken on for no contract. */
  lemma MarkKeeps(config: Config, s: State, hash: Hash)
    requires Kept(config, s) && s.Holds(hash) && OutgoingContract(s, hash) == None
    ensures Kept(config, s.(events := s.events + {hash}))
  {
    var t := s.(events := s.events + {hash});
    assert Attempted(config, s, hash);
    forall op ensures OutcomeDue(t, op) && RightClaim(config, t, op) {
      assert OutcomeDue(s, op) && RightClaim(config, s, op);
    }
    forall h ensures Attempted(config, t, h) && FundedOnce(config, t, h) {
      assert Attempted(config, s, h) && FundedOnce(config, s, h);
    }
    forall o, h ensures ClaimBacked(t, o, h) {
      assert ClaimBacked(s, o, h) && (ClaimedOver(t, o, h) <==> ClaimedOver(s, o, h));
    }
    SameClaims(s, t);
  }

  /** A lightning outcome settles the contract its hash was taken on for, whose
      payment was under way until now. */
  lemma SettledKeeps(config: Config, s: State, hash: Hash, outcome: Outcome)
    requires Kept(config, s) && hash in s.sent && (outcome.Claimed? ==> config.hashOf(outcome.preimage) == hash)
    ensures Kept(config, Settled(s, hash, outcome))
  {
    if hash !in s.events {
      match OutgoingContract(s, hash)
      case Some(op) => ConcludeKeeps(config, s, hash, op, outcome);
      case None => MarkKeeps(config, s, hash);
    }
  }

  /** The payment under way for the contract ends. */
  function Conclude(s: State, hash: Hash, op: OperationId, outcome: Outcome): State {
    s.(events := s.events + {hash}).Finalize(op, outcome)
  }

  /** The payment the hash was taken on for can end with the outcome. */
  ghost predicate Concludable(config: Config, s: State, hash: Hash, op: OperationId, outcome: Outcome) {
    && Kept(config, s) && hash in s.sent && hash !in s.events && OutgoingContract(s, hash) == Some(op)
    && (outcome.Claimed? ==> config.hashOf(outcome.preimage) == hash)
  }

  lemma ConcludeKeeps(config: Config, s: State, hash: Hash, op: OperationId, outcome: Outcome)
    requires Concludable(config, s, hash, op, outcome)
    ensures Kept(config, Conclude(s, hash, op, outcome))
  {
    var t := Conclude(s, hash, op, outcome);
    assert Attempted(config, s, hash) && UnderWay(s, op) && OutcomeDue(s, op);
    forall o ensures OutcomeDue(t, o) && RightClaim(config, t, o) {
      assert OutcomeDue(s, o) && RightClaim(config, s, o);
    }
    forall h ensures Attempted(config, t, h) && FundedOnce(config, t, h) {
      assert Attempted(config, s, h) && FundedOnce(config, s, h);
    }
    ConcludePairs(config, s, hash, op, outcome);
  }

  /** No other contract over the hash was claimed: none is swapped over a hash
      that was taken on. */
  lemma ConcludePairs(config: Config, s: State, hash: Hash, op: OperationId, outcome: Outcome)
    requires Concludable(config, s, hash, op, outcome)
    ensures Paired(Conclude(s, hash, op, outcome))
  {
    var t := Conclude(s, hash, op, outcome);
    assert Attempted(config, s, hash) && OutcomeDue(s, op);
    forall o, h ensures ClaimBacked(t, o, h) {
      assert ClaimBacked(s, o, h);
    }
    forall a, b, h ensures OneClaimed(t, a, b, h) {
      assert OneClaimed(s, a, b, h) && ClaimBacked(s, a, hash) && ClaimBacked(s, b, hash);
    }
    forall h ensures FundingPaid(t, h) {
      if t.FundingsOf(h) != [] && t.ClaimsOf(h) == [] {
        assert FundingPaid(s, h);
        var o :| SwappedWith(s, o, h);
        assert SwappedWith(t, o, h);
      }
    }
  }

  lemma HandPayKeeps(config: Config, s: State, hash: Hash)
    requires Kept(config, s) && hash !in s.issued && !Refused(s, hash)
    ensures Kept(config, HandPay(s, hash))
  {
    var t := HandPay(s, hash);
    forall op ensures OutcomeDue(t, op) && RightClaim(config, t, op) {
      assert OutcomeDue(s, op) && RightClaim(config, s, op);
    }
    forall h ensures Attempted(config, t, h) && FundedOnce(config, t, h) {
      assert Attempted(config, s, h) && FundedOnce(config, s, h);
    }
    forall o, h ensures ClaimBacked(t, o, h) {
      assert ClaimBacked(s, o, h) && (ClaimedOver(t, o, h) <==> ClaimedOver(s, o, h));
    }
    SameClaims(s, t);
  }

  lemma StepKeepsInv(config: Config, s: State, step: Step)
    requires Kept(config, s) && Enabled(config, s, step) && Careful(s, step)
    ensures Kept(config, Next(config, s, step))
  {
    match step
    case SendStep(request, accepted, funds) => SendKeeps(config, s, request, accepted, funds);
    case ReceiveStep(contract, mintAdded, issues) => ReceiveKeeps(config, s, contract, mintAdded, issues);
    case ClaimableStep(hash, amount, funds) => ClaimableKeeps(config, s, hash, amount, funds);
    case SucceededStep(hash, preimage) => SettledKeeps(config, s, hash, Claimed(preimage));
    case FailedStep(hash) => SettledKeeps(config, s, hash, Forfeited);
    case HandPayStep(hash) => HandPayKeeps(config, s, hash);
  }

  // ----- whole runs -----

  /** `t` is reached from `s` by `steps`, none a hand payment of a refused hash. */
  predicate Reaches(config: Config, s: State, steps: seq<Step>, t: State)
    decreases |steps|
  {
    if steps == [] then s == t else
      && Enabled(config, s, steps[0]) && Careful(s, steps[0])
      && Reaches(config, Next(config, s, steps[0]), steps[1..], t)
  }

  lemma {:induction false} RunKeepsInv(config: Config, s: State, steps: seq<Step>, t: State)
    requires Kept(config, s) && Reaches(config, s, steps, t)
    ensures Kept(config, t)
    decreases |steps|
  {
    if steps != [] {
      StepKeepsInv(config, s, steps[0]);
      RunKeepsInv(config, Next(config, s, steps[0]), steps[1..], t);
    }
  }

  lemma Reached(config: Config, steps: seq<Step>, t: State)
    requires Reaches(config, Empty, steps, t)
    ensures Kept(config, t)
  {
    InitialKept(config);
    RunKeepsInv(config, Empty, steps, t);
  }

  /** Over every interleaving: a contract taken on gets exactly one outcome, a
      forfeit or, if it was priced, a claim with a preimage of its hash, unless
      its payment is still under way; a contract never taken on gets none. */
  lemma OneOutcome(config: Config, steps: seq<Step>, t: State, op: OperationId)
    requires Reaches(config, Empty, steps, t)
    ensures |t.OutcomesOf(op)| <= 1
    ensures op in t.outgoing ==> (|t.OutcomesOf(op)| == 1 <==> !UnderWay(t, op))
    ensures RightClaim(config, t, op)
  {
    Reached(config, steps, t);
    assert OutcomeDue(t, op) && RightClaim(config, t, op);
  }

  /** Over every interleaving: no hash claims two outgoing contracts, none is
      both paid and issued, and the one claimed over a hash not issued is the
      one its payment was made for. */
  lemma ClaimedOncePerHash(config: Config, steps: seq<Step>, t: State, a: OperationId, hash: Hash)
    requires Reaches(config, Empty, steps, t) && ClaimedOver(t, a, hash)
    ensures forall b :: ClaimedOver(t, b, hash) ==> b == a
    ensures hash in t.issued <==> SwappedWith(t, a, hash)
    ensures hash !in t.issued <==> hash in t.paymentHash && t.paymentHash[hash] == a
  {
    Reached(config, steps, t);
    assert ClaimBacked(t, a, hash) && Attempted(config, t, hash);
    forall b | ClaimedOver(t, b, hash) ensures b == a {
      assert OneClaimed(t, b, a, hash);
    }
  }

  /** Over every interleaving: a contract funded over a hash is the only one,
      and as much is claimed for it with its preimage exactly once: of one
      outgoing contract, or of one inbound payment and no outgoing contract. */
  lemma FundedAndClaimedOnce(config: Config, steps: seq<Step>, t: State, hash: Hash)
    requires Reaches(config, Empty, steps, t) && t.FundingsOf(hash) != []
    ensures |t.FundingsOf(hash)| == 1 && hash !in t.incoming && hash !in t.paymentHash && hash !in t.sent
    ensures config.hashOf(t.FundingsOf(hash)[0].preimage) == hash
    ensures PaidByInbound(t, hash) || exists op :: SwappedWith(t, op, hash)
    ensures PaidByInbound(t, hash) ==> forall op :: !ClaimedOver(t, op, hash)
    ensures t.ClaimsOf(hash) != [] <==> PaidByInbound(t, hash)
  {
    Reached(config, steps, t);
    assert Attempted(config, t, hash) && FundedOnce(config, t, hash) && FundingPaid(t, hash);
    forall op | ClaimedOver(t, op, hash) ensures SwappedWith(t, op, hash) {
      IssuedClaimsAreSwaps(config, t, op, hash);
    }
  }

  /** One inbound payment was claimed for the funding. */
  predicate PaidByInbound(s: State, hash: Hash) {
    && s.FundingsOf(hash) != []
    && s.ClaimsOf(hash) == [InboundClaim(s.FundingsOf(hash)[0].preimage, s.FundingsOf(hash)[0].amount)]
  }

  /** A hash is taken on only for a contract of the invoice's amount that pays
      the gateway's fee, and a payment it has under way is for such a one. */
  lemma PaymentIsCovered(config: Config, steps: seq<Step>, t: State, hash: Hash)
    requires Reaches(config, Empty, steps, t)
    ensures Attempted(config, t, hash)
    ensures forall op :: UnderWay(t, op) ==> Priced(config, t.outgoing[op].contract, t.outgoing[op].invoice)
  {
    Reached(config, steps, t);
    forall op | UnderWay(t, op) ensures Priced(config, t.outgoing[op].contract, t.outgoing[op].invoice) {
      assert Attempted(config, t, t.outgoing[op].contract.hash);
    }
  }

  /** A lightning payment is asked for only over a hash not held before, and is
      then under way for the contract. */
  lemma PaymentIsNew(config: Config, steps: seq<Step>, s: State, request: SendRequest, accepted: bool, funds: bool)
    requires Reaches(config, Empty, steps, s) && Send(config, s, request, accepted, funds).sent != s.sent
    ensures var t := Send(config, s, request, accepted, funds);
      && !s.Holds(request.contract.hash) && t.sent == s.sent + {request.contract.hash}
      && UnderWay(t, request.operation)
  {
    Reached(config, steps, s);
    SendCases(config, s, request, accepted, funds);
    if Attemptable(config, s, request) {
      PayKeeps(config, s, request);
    }
  }

  /** The contract registered under `hash`, of amount `income`, got funded. */
  predicate Covered(s: State, hash: Hash, income: nat, t: State) {
    && hash in s.incoming && s.incoming[hash].amount == income && hash !in t.incoming
    && t.fundings == s.fundings[hash := s.FundingsOf(hash) + [s.incoming[hash]]]
  }

  /** A contract is funded only out of as much taken in: a swapped contract's
      amount, or an inbound payment's. */
  lemma FundingIsCovered(config: Config, s: State, step: Step)
    ensures match step
      case SendStep(request, accepted, funds) =>
        var t := Send(config, s, request, accepted, funds);
        t.fundings == s.fundings || Covered(s, request.contract.hash, request.contract.amount, t)
      case ClaimableStep(hash, amount, funds) =>
        var t := Claimable(s, hash, amount, funds);
        t.fundings == s.fundings || Covered(s, hash, amount, t)
      case _ => Next(config, s, step).fundings == s.fundings
  {
    match step
    case SendStep(request, accepted, funds) =>
      if Send(config, s, request, accepted, funds).fundings != s.fundings {
        SwapIsCovered(config, s, request, accepted, funds);
      }
    case ClaimableStep(hash, amount, funds) =>
      if Claimable(s, hash, amount, funds).fundings != s.fundings {
        RedeemIsCovered(s, hash, amount, funds);
      }
    case _ =>
  }

  lemma SwapIsCovered(config: Config, s: State, request: SendRequest, accepted: bool, funds: bool)
    requires Send(config, s, request, accepted, funds).fundings != s.fundings
    ensures Covered(s, request.contract.hash, request.contract.amount, Send(config, s, request, accepted, funds))
  {
  }

  lemma RedeemIsCovered(s: State, hash: Hash, amount: nat, funds: bool)
    requires Claimable(s, hash, amount, funds).fundings != s.fundings
    ensures Covered(s, hash, amount, Claimable(s, hash, amount, funds))
  {
  }

  /** Nothing is claimed over an issued hash before its contract is funded. */
  lemma UnfundedIsUnclaimed(config: Config, steps: seq<Step>, t: State, op: OperationId, hash: Hash)
    requires Reaches(config, Empty, steps, t) && t.FundingsOf(hash) == []
    ensures t.ClaimsOf(hash) == []
    ensures hash in t.issued ==> !ClaimedOver(t, op, hash)
  {
    Reached(config, steps, t);
    assert FundedOnce(config, t, hash);
    if hash in t.issued && ClaimedOver(t, op, hash) {
      IssuedClaimsAreSwaps(config, t, op, hash);
    }
  }

  /** The outcome a contract has once it has one never changes and nothing is
      added to it. */
  lemma OutcomesStand(config: Config, s: State, step: Step, op: OperationId)
    requires Kept(config, s) && Enabled(config, s, step) && Careful(s, step) && s.OutcomesOf(op) != []
    ensures Next(config, s, step).OutcomesOf(op) == s.OutcomesOf(op)
  {
    StepKeepsInv(config, s, step);
    assert OutcomeDue(s, op) && OutcomeDue(Next(config, s, step), op);
    OutcomesGrow(config, s, step, op);
  }

  lemma OutcomesGrow(config: Config, s: State, step: Step, op: OperationId)
    requires Kept(config, s)
    ensures s.OutcomesOf(op) <= Next(config, s, step).OutcomesOf(op)
  {
    match step
    case SendStep(request, accepted, funds) => SendGrows(config, s, request, accepted, funds, op);
    case _ =>
  }

  lemma SendGrows(config: Config, s: State, request: SendRequest, accepted: bool, funds: bool, op: OperationId)
    requires Kept(config, s)
    ensures s.OutcomesOf(op) <= Send(config, s, request, accepted, funds).OutcomesOf(op)
  {
    if request.valid && request.operation !in s.outgoing {
      assert OutcomeDue(s, request.operation);
      if op == request.operation {
        assert s.OutcomesOf(op) == [];
      } else {
        SendSpares(config, s, request, accepted, funds, op);
      }
    }
  }

  /** A send writes an outcome for no other contract. */
  lemma SendSpares(config: Config, s: State, request: SendRequest, accepted: bool, funds: bool, op: OperationId)
    requires Fresh(config, s, request) && op != request.operation
    ensures Send(config, s, request, accepted, funds).OutcomesOf(op) == s.OutcomesOf(op)
  {
    SendCases(config, s, request, accepted, funds);
  }

  /** Hand-paying an invoice breaks this exactly for a hash the gateway was
      refused, whose sender has its refund already. */
  lemma HandPayKeepsInvIff(config: Config, s: State, hash: Hash)
    requires Kept(config, s) && hash !in s.issued
    ensures Kept(config, HandPay(s, hash)) <==> !Refused(s, hash)
  {
    if Refused(s, hash) {
      assert Attempted(config, s, hash) && OutcomeDue(s, s.paymentHash[hash]);
      assert UnderWay(HandPay(s, hash), s.paymentHash[hash]) && !OutcomeDue(HandPay(s, hash), s.paymentHash[hash]);
    } else {
      HandPayKeeps(config, s, hash);
    }
  }

  /** The second outcome, once the hand payment succeeds. */
  lemma RefusedThenPaidSettlesTwice(config: Config, s: State, hash: Hash, preimage: Preimage)
    requires Kept(config, s) && Refused(s, hash)
    requires config.hashOf(preimage) == hash
    ensures var t := Settled(HandPay(s, hash), hash, Claimed(preimage));
      |t.OutcomesOf(s.paymentHash[hash])| == 2 && t.OutcomesOf(s.paymentHash[hash])[1] == Claimed(preimage)
  {
    assert Attempted(config, s, hash) && OutcomeDue(s, s.paymentHash[hash]);
  }

  /** Such a state is reached by one request the lightning node refuses. */
  lemma RefusalReachable(config: Config)
    requires config.hashOf(7) == 1 && config.sendFee(1000) == 10
    ensures var request := SendRequest(0, Outgoing(1, 5, 1000, 10), 0, Invoice(5, 1, Some(1000), false), true);
      var s := Send(config, Empty, request, false, false);
      && Reaches(config, Empty, [SendStep(request, false, false)], s)
      && Refused(s, 1) && s.OutcomesOf(0) == [Forfeited]
      && Settled(HandPay(s, 1), 1, Claimed(7)).OutcomesOf(0) == [Forfeited, Claimed(7)]
  {
    var request := SendRequest(0, Outgoing(1, 5, 1000, 10), 0, Invoice(5, 1, Some(1000), false), true);
    var steps := [SendStep(request, false, false)];
    var s := Send(config, Empty, request, false, false);
    assert steps[1..] == [] && Next(config, Empty, steps[0]) == s;
    assert Priced(config, request.contract, request.invoice);
  }

  // ----- exactly when what happens -----

  /** Which of the four a new, confirmed contract meets. */
  lemma SendIs(config: Config, s: State, request: SendRequest, accepted: bool, funds: bool)
    requires Fresh(config, s, request)
    ensures Send(config, s, request, accepted, funds) ==
      if Attemptable(config, s, request) && !request.invoice.ours then
        if accepted then Pay(s, request) else Refuse(s, request)
      else if Swappable(config, s, request) && request.invoice.ours && funds then Swap(Take(s, request), request)
      else Refund(s, request)
  {
  }

  /** A contract newly taken on is paid over lightning exactly if it is for its
      invoice, the invoice is not our own, its hash was never taken on, issued
      or sent, and the lightning node accepts. */
  lemma PaidIff(config: Config, steps: seq<Step>, s: State, request: SendRequest, accepted: bool, funds: bool)
    requires Reaches(config, Empty, steps, s) && request.valid && request.operation !in s.outgoing
    ensures var t, hash := Send(config, s, request, accepted, funds), request.contract.hash;
      UnderWay(t, request.operation) <==>
        && request.contract.invoice == request.invoice.digest && request.invoice.hash == hash
        && request.invoice.amount == Some(request.contract.amount)
        && request.contract.fee == config.sendFee(request.contract.amount)
        && !request.invoice.ours && hash !in s.paymentHash && hash !in s.issued && hash !in s.sent && accepted
  {
    Reached(config, steps, s);
    SendIs(config, s, request, accepted, funds);
    NotUnderWay(config, s, request);
    if Attemptable(config, s, request) {
      PayKeeps(config, s, request);
    }
  }

  lemma NotUnderWay(config: Config, s: State, request: SendRequest)
    requires Fresh(config, s, request)
    ensures !UnderWay(Refund(s, request), request.operation)
    ensures Attemptable(config, s, request) ==> !UnderWay(Refuse(s, request), request.operation)
    ensures Swappable(config, s, request) ==> !UnderWay(Swap(Take(s, request), request), request.operation)
  {
    assert Attempted(config, s, request.contract.hash);
  }

  /** It is swapped exactly if it is for its invoice, the invoice is our own, the
      contract registered under its hash is of its amount and unfunded, and the
      mint client funds it; its claim is that contract's preimage. */
  lemma SwappedIff(config: Config, steps: seq<Step>, s: State, request: SendRequest, accepted: bool, funds: bool)
    requires Reaches(config, Empty, steps, s) && request.valid && request.operation !in s.outgoing
    ensures var t, hash := Send(config, s, request, accepted, funds), request.contract.hash;
      SwappedWith(t, request.operation, hash) <==>
        && request.contract.invoice == request.invoice.digest && request.invoice.hash == hash
        && request.invoice.amount == Some(request.contract.amount)
        && request.contract.fee == config.sendFee(request.contract.amount)
        && request.invoice.ours && hash in s.incoming && s.incoming[hash].amount == request.contract.amount && funds
    ensures var t, hash := Send(config, s, request, accepted, funds), request.contract.hash;
      SwappedWith(t, request.operation, hash) ==>
        && t.OutcomesOf(request.operation) == [Claimed(s.incoming[hash].preimage)]
        && t.FundingsOf(hash) == [s.incoming[hash]] && hash !in t.incoming
  {
    Reached(config, steps, s);
    SendIs(config, s, request, accepted, funds);
    RefundSettles(config, s, request);
    PaySettles(config, s, request);
    if Swappable(config, s, request) {
      SwapSettles(config, s, request);
    }
  }

  /** Otherwise it is refunded on arrival, and it is kept as it came. */
  lemma RefundedElse(config: Config, steps: seq<Step>, s: State, request: SendRequest, accepted: bool, funds: bool)
    requires Reaches(config, Empty, steps, s) && request.valid && request.operation !in s.outgoing
    ensures var t, op := Send(config, s, request, accepted, funds), request.operation;
      && op in t.outgoing && t.outgoing[op] == OutgoingRow(request.contract, request.outpoint, request.invoice)
      && (t.OutcomesOf(op) == [Forfeited] <==>
           !UnderWay(t, op) && !SwappedWith(t, op, request.contract.hash))
  {
    Reached(config, steps, s);
    SendIs(config, s, request, accepted, funds);
    RefundSettles(config, s, request);
    PaySettles(config, s, request);
    NotUnderWay(config, s, request);
    if Attemptable(config, s, request) {
      PayKeeps(config, s, request);
    }
    if Swappable(config, s, request) {
      SwapSettles(config, s, request);
    }
  }

  /** A refund, with or without an attempt, is a forfeit. */
  lemma RefundSettles(config: Config, s: State, request: SendRequest)
    requires Fresh(config, s, request)
    ensures Refund(s, request).OutcomesOf(request.operation) == [Forfeited]
    ensures Refuse(s, request).OutcomesOf(request.operation) == [Forfeited]
  {
    assert OutcomeDue(s, request.operation) && Attempted(config, s, request.contract.hash);
  }

  lemma PaySettles(config: Config, s: State, request: SendRequest)
    requires Fresh(config, s, request)
    ensures Pay(s, request).OutcomesOf(request.operation) == []
  {
    assert OutcomeDue(s, request.operation);
  }

  lemma SwapSettles(config: Config, s: State, request: SendRequest)
    requires Swappable(config, s, request)
    ensures var t, hash := Swap(Take(s, request), request), request.contract.hash;
      && t.OutcomesOf(request.operation) == [Claimed(s.incoming[hash].preimage)]
      && SwappedWith(t, request.operation, hash) && t.FundingsOf(hash) == [s.incoming[hash]] && hash !in t.incoming
  {
    assert OutcomeDue(s, request.operation) && FundedOnce(config, s, request.contract.hash);
  }

  /** A contract is registered and its invoice issued exactly if its mint is
      known, it pays the gateway's fee out of its amount, its hash was never
      taken on, issued or sent, and the lightning node issues the invoice. */
  lemma RegisteredIff(config: Config, s: State, contract: Incoming, mintAdded: bool, issues: bool)
    ensures var t, hash := Receive(config, s, contract, mintAdded, issues), config.hashOf(contract.preimage);
      var taken :=
        && mintAdded && issues && contract.fee == config.receiveFee(contract.amount) && contract.fee <= contract.amount
        && hash !in s.paymentHash && hash !in s.issued && hash !in s.sent;
      && (hash in t.issued && hash !in s.issued <==> taken)
      && (taken ==> hash in t.incoming && t.incoming[hash] == contract)
      && (!taken ==> t == s)
  {
  }

  /** An inbound payment is funded and claimed exactly if its event is new, the
      contract registered under its hash is of exactly its amount, and the mint
      client funds it; the claim carries that contract's preimage. */
  lemma RedeemedIff(config: Config, steps: seq<Step>, s: State, hash: Hash, amount: nat, funds: bool)
    requires Reaches(config, Empty, steps, s) && hash in s.issued
    ensures var t := Claimable(s, hash, amount, funds);
      var redeemed := hash !in s.events && hash in s.incoming && s.incoming[hash].amount == amount && funds;
      && hash in t.events
      && (PaidByInbound(t, hash) && !PaidByInbound(s, hash) <==> redeemed)
      && (redeemed ==> t.FundingsOf(hash) == [s.incoming[hash]] && hash !in t.incoming)
      && (redeemed ==> t.ClaimsOf(hash) == [InboundClaim(s.incoming[hash].preimage, amount)])
      && (!redeemed ==> t.fundings == s.fundings && t.claims == s.claims && t.incoming == s.incoming)
  {
    Reached(config, steps, s);
    assert FundedOnce(config, s, hash);
  }

  /** A lightning outcome is the outcome of the contract whose payment it ends,
      a claim with the preimage reported or a forfeit, and of no other. */
  lemma SettledIs(config: Config, steps: seq<Step>, s: State, hash: Hash, outcome: Outcome, op: OperationId)
    requires Reaches(config, Empty, steps, s) && hash in s.sent
    ensures Settled(s, hash, outcome).OutcomesOf(op) ==
      if UnderWay(s, op) && s.outgoing[op].contract.hash == hash then [outcome] else s.OutcomesOf(op)
    ensures hash in Settled(s, hash, outcome).events
  {
    Reached(config, steps, s);
    assert Attempted(config, s, hash) && OutcomeDue(s, op);
  }
}

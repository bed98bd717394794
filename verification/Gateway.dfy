/** The gateway's handlers, each a write transaction over its tables. */
module Gateway {
  import opened Settlement

  class Gateway {
    const config: Config

    // the database tables
    var outgoing: map<OperationId, OutgoingRow>
    var paymentHash: map<Hash, OperationId>
    var incoming: map<Hash, Incoming>
    var events: set<Hash>

    // what the lightning node holds
    var issued: set<Hash>
    var sent: set<Hash>

    // what has been written for the mints and told the lightning node
    var outcomes: map<OperationId, seq<Outcome>>
    var fundings: map<Hash, seq<Incoming>>
    var claims: map<Hash, seq<InboundClaim>>

    function AsState(): State
      reads this
    {
      State(outgoing, paymentHash, incoming, events, issued, sent, outcomes, fundings, claims)
    }

    ghost predicate Valid()
      reads this
    {
      Kept(config, AsState())
    }

    constructor (config: Config)
      ensures Valid() && this.config == config && AsState() == Empty
    {
      this.config := config;
      outgoing, paymentHash, incoming, events, issued, sent := map[], map[], map[], {}, {}, {};
      outcomes, fundings, claims := map[], map[], map[];
      new;
      InitialKept(config);
    }

    /** The mint client's settlement of an outgoing contract. */
    method FinalizeSend(op: OperationId, outcome: Outcome)
      modifies this`outcomes
      ensures AsState() == old(AsState()).Finalize(op, outcome)
    {
      outcomes := outcomes[op := (if op in outcomes then outcomes[op] else []) + [outcome]];
    }

    /** The mint client's funding of the registered contract. */
    method Fund(hash: Hash)
      requires hash in incoming
      modifies this`incoming, this`fundings
      ensures AsState() == old(AsState()).Fund(hash)
    {
      fundings := fundings[hash := (if hash in fundings then fundings[hash] else []) + [incoming[hash]]];
      incoming := Unrow(incoming, hash);
    }

    /** Take a funded contract on and pay or refund it. The row is kept by its
        operation, so a repeated request changes nothing. */
    method SendPayment(request: SendRequest, accepted: bool, funds: bool) returns (ok: bool)
      requires Valid()
      modifies this
      ensures Valid()
      ensures AsState() == Send(config, old(AsState()), request, accepted, funds)
      ensures ok == request.valid
      ensures ok ==> request.operation in outgoing
      ensures ok ==> UnderWay(AsState(), request.operation) || |AsState().OutcomesOf(request.operation)| == 1
    {
      ghost var s := AsState();
      SendKeeps(config, s, request, accepted, funds);
      assert OutcomeDue(Send(config, s, request, accepted, funds), request.operation);
      if !request.valid {
        return false;
      }
      if request.operation in outgoing {
        return true;
      }
      outgoing := outgoing[request.operation := OutgoingRow(request.contract, request.outpoint, request.invoice)];
      var started := StartPaymentOf(request, accepted, funds);
      if !started {
        FinalizeSend(request.operation, Forfeited);
      }
      return true;
    }

    /** Pay over lightning, or swap with an incoming contract of our own. */
    method StartPaymentOf(request: SendRequest, accepted: bool, funds: bool) returns (ok: bool)
      modifies this
      ensures (AsState(), ok) == StartPayment(config, old(AsState()), request, accepted, funds)
    {
      var contract, invoice := request.contract, request.invoice;
      if contract.invoice != invoice.digest || invoice.amount.None? || invoice.hash != contract.hash {
        return false;
      }
      if contract.amount != invoice.amount.value || contract.fee != config.sendFee(invoice.amount.value) {
        return false;
      }
      if !invoice.ours {
        if contract.hash in paymentHash || contract.hash in issued || contract.hash in sent {
          return false;
        }
        paymentHash := paymentHash[contract.hash := request.operation];
        if accepted {
          sent := sent + {contract.hash};
        }
        return accepted;
      }
      if contract.hash !in incoming || incoming[contract.hash].amount != contract.amount {
        return false;
      }
      var preimage := incoming[contract.hash].preimage;
      if !funds {
        return false;
      }
      Fund(contract.hash);
      FinalizeSend(request.operation, Claimed(preimage));
      return true;
    }

    /** Register an incoming contract and issue its invoice. */
    method RegisterReceive(contract: Incoming, mintAdded: bool, issues: bool) returns (ok: bool)
      requires Valid()
      modifies this
      ensures Valid()
      ensures AsState() == Receive(config, old(AsState()), contract, mintAdded, issues)
      ensures ok ==> config.hashOf(contract.preimage) !in old(issued)
      ensures ok ==> incoming == old(incoming)[config.hashOf(contract.preimage) := contract]
      ensures !ok ==> AsState() == old(AsState())
    {
      ReceiveKeeps(config, AsState(), contract, mintAdded, issues);
      var hash := config.hashOf(contract.preimage);
      if !mintAdded || contract.fee != config.receiveFee(contract.amount) || contract.fee > contract.amount {
        return false;
      }
      if hash in paymentHash || hash in issued || hash in sent || !issues {
        return false;
      }
      issued := issued + {hash};
      incoming := incoming[hash := contract];
      return true;
    }

    /** An inbound payment arrived: fund the registered contract and claim the
        payment in one step, or fail it. */
    method HandlePaymentClaimable(hash: Hash, amount: nat, funds: bool)
      requires Valid() && hash in issued
      modifies this
      ensures Valid()
      ensures AsState() == Claimable(old(AsState()), hash, amount, funds)
      ensures hash in events
      ensures hash in old(events) ==> AsState() == old(AsState())
    {
      ClaimableKeeps(config, AsState(), hash, amount, funds);
      if hash in events {
        return;
      }
      events := events + {hash};
      if hash !in incoming || incoming[hash].amount != amount || !funds {
        return;
      }
      var claim := InboundClaim(incoming[hash].preimage, amount);
      Fund(hash);
      claims := claims[hash := (if hash in claims then claims[hash] else []) + [claim]];
    }

    method HandlePaymentSuccessful(hash: Hash, preimage: Preimage)
      requires Valid() && hash in sent && config.hashOf(preimage) == hash
      modifies this
      ensures Valid()
      ensures AsState() == Settled(old(AsState()), hash, Claimed(preimage))
      ensures hash in old(events) ==> AsState() == old(AsState())
    {
      SettledKeeps(config, AsState(), hash, Claimed(preimage));
      Settle(hash, Claimed(preimage));
    }

    method HandlePaymentFailed(hash: Hash)
      requires Valid() && hash in sent
      modifies this
      ensures Valid()
      ensures AsState() == Settled(old(AsState()), hash, Forfeited)
      ensures hash in old(events) ==> AsState() == old(AsState())
    {
      SettledKeeps(config, AsState(), hash, Forfeited);
      Settle(hash, Forfeited);
    }

    /** Mark the event and settle the contract its hash was taken on for. */
    method Settle(hash: Hash, outcome: Outcome)
      modifies this
      ensures AsState() == Settled(old(AsState()), hash, outcome)
    {
      if hash in events {
        return;
      }
      events := events + {hash};
      if hash in paymentHash && paymentHash[hash] in outgoing {
        FinalizeSend(paymentHash[hash], outcome);
      }
    }
  }
}

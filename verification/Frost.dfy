/** FROST signing over a prime-order group. Points are represented by their
    discrete logarithms: the point at infinity is 0, the generator is 1, and a
    public key is the secret key it belongs to. */
module Frost {
  import opened Ordered
  import opened Field
  import opened Interpolation

  type Message = nat

  /** What is taken from outside: the curve order, the parity of a point's y
      coordinate, and the two tagged hashes read as numbers. */
  datatype Suite = Suite(
    q: nat,
    odd: nat -> bool,
    noncecoef: (seq<nat>, Option<nat>, Option<nat>, nat, Message) -> nat,
    challenge: (nat, nat, Message) -> nat
  ) {
    /** Node identifiers fit four bytes; negation flips the parity. */
    ghost predicate Sound() {
      && IsPrime(q) && q > 0x1_0000_0000
      && forall x: nat {:trigger Flips(x)} :: 0 < x < q ==> Flips(x)
    }

    predicate Flips(x: nat)
      requires x < q
    {
      odd(q - x) == !odd(x)
    }

    function Negate(x: nat): nat
      requires q > 0
    {
      (q - x % q) % q
    }

    /** The point with even y among `x` and its negation: what an x-only key names. */
    function Even(x: nat): nat
      requires q > 0
    {
      Signed(odd(x), x)
    }

    /** The scalar or point of an integer, none at zero or infinity. */
    function Reduced(x: int): Option<nat>
      requires q > 0
    {
      if x % q == 0 then None else Some(x % q)
    }

    function Times(x: nat, y: nat): Option<nat>
      requires q > 0
    {
      Reduced(x * y)
    }

    function Plus(x: nat, y: nat): Option<nat>
      requires q > 0
    {
      Reduced(x + y)
    }

    /** Negated where `flip` says so. */
    function Signed(flip: bool, x: nat): nat
      requires q > 0
    {
      if flip then Negate(x) else x
    }
  }

  type Pair = (nat, nat)

  /** What a node's nonce contributes, first half or second. */
  function Firsts(nonces: map<nat, Pair>): nat -> int {
    (i: nat) => if i in nonces then nonces[i].0 else 0
  }

  function Seconds(nonces: map<nat, Pair>): nat -> int {
    (i: nat) => if i in nonces then nonces[i].1 else 0
  }

  function AddPoint(suite: Suite, accumulator: Option<nat>, point: nat): Option<nat>
    requires suite.q > 0
  {
    match accumulator
    case None => Some(point)
    case Some(sum) => suite.Plus(sum, point)
  }

  predicate IsPoint(suite: Suite, x: nat) {
    0 < x < suite.q
  }

  lemma AddPointSums(suite: Suite, sum: int, point: nat)
    requires suite.Sound() && IsPoint(suite, point)
    ensures AddPoint(suite, suite.Reduced(sum), point) == suite.Reduced(sum + point)
  {
    AddMod(suite.q, sum, point);
    ModUnique(suite.q, point, 0, point);
  }

  /** The sum over the first `i` nodes of a walk. */
  ghost function SumOfFirst(walk: seq<nat>, i: nat, f: nat -> int): int
    requires i <= |walk|
  {
    SumOver(Visited(walk, i), f)
  }

  ghost function Visited(walk: seq<nat>, i: nat): set<nat>
    requires i <= |walk|
  {
    set x | x in walk[..i]
  }

  predicate Rising(walk: seq<nat>) {
    forall j, k :: 0 <= j < k < |walk| ==> walk[j] < walk[k]
  }

  lemma SumOneMore(walk: seq<nat>, i: nat, f: nat -> int)
    requires i < |walk| && Rising(walk)
    ensures SumOfFirst(walk, i + 1, f) == SumOfFirst(walk, i, f) + f(walk[i])
  {
    var before := Visited(walk, i);
    assert walk[..i + 1] == walk[..i] + [walk[i]];
    assert walk[i] !in before;
    assert Visited(walk, i + 1) == before + {walk[i]};
    assert before + {walk[i]} - {walk[i]} == before;
    SumPeel(before + {walk[i]}, f, walk[i]);
  }

  lemma SumAll(nodes: set<nat>, f: nat -> int)
    ensures SumOfFirst(Ascending(nodes), |Ascending(nodes)|, f) == SumOver(nodes, f)
  {
    var walk := Ascending(nodes);
    assert walk[..|walk|] == walk;
    assert Visited(walk, |walk|) == nodes;
  }

  /** The points added up over the first `i` nodes. */
  ghost function PointOfFirst(suite: Suite, walk: seq<nat>, i: nat, f: nat -> int): Option<nat>
    requires suite.q > 0 && i <= |walk|
  {
    suite.Reduced(SumOfFirst(walk, i, f))
  }

  lemma PointStarts(suite: Suite, walk: seq<nat>, f: nat -> int)
    requires suite.q > 0
    ensures PointOfFirst(suite, walk, 0, f) == None
  {
    ModUnique(suite.q, 0, 0, 0);
  }

  lemma PointStep(suite: Suite, walk: seq<nat>, i: nat, f: nat -> int, point: nat)
    requires suite.Sound() && i < |walk| && Rising(walk) && f(walk[i]) == point && IsPoint(suite, point)
    ensures PointOfFirst(suite, walk, i + 1, f) == AddPoint(suite, PointOfFirst(suite, walk, i, f), point)
  {
    SumOneMore(walk, i, f);
    AddPointSums(suite, SumOfFirst(walk, i, f), point);
  }

  /** The coordinate-wise sums of the nonce pairs. */
  method AggregateNonceHalves(suite: Suite, nonces: map<nat, Pair>) returns (first: Option<nat>, second: Option<nat>)
    requires suite.Sound() && PublicNonces(suite, nonces)
    ensures (first, second) == Halves(suite, nonces)
  {
    first, second := None, None;
    var walk := Ascending(nonces.Keys);
    AscendingRises(nonces.Keys);
    PointStarts(suite, walk, Firsts(nonces));
    PointStarts(suite, walk, Seconds(nonces));
    for i := 0 to |walk|
      invariant first == PointOfFirst(suite, walk, i, Firsts(nonces))
      invariant second == PointOfFirst(suite, walk, i, Seconds(nonces))
    {
      assert walk[i] in walk;
      var nonce := nonces[walk[i]];
      PointStep(suite, walk, i, Firsts(nonces), nonce.0);
      PointStep(suite, walk, i, Seconds(nonces), nonce.1);
      first := AddPoint(suite, first, nonce.0);
      second := AddPoint(suite, second, nonce.1);
    }
    SumAll(nonces.Keys, Firsts(nonces));
    SumAll(nonces.Keys, Seconds(nonces));
  }

  ghost predicate PublicNonces(suite: Suite, nonces: map<nat, Pair>) {
    forall i :: i in nonces ==> i < 0x1_0000_0000 && IsPoint(suite, nonces[i].0) && IsPoint(suite, nonces[i].1)
  }

  // ----- a signing session -----

  datatype Session = Session(binding: nat, groupNonce: nat, challenge: nat)

  function Halves(suite: Suite, nonces: map<nat, Pair>): (Option<nat>, Option<nat>)
    requires suite.q > 0
  {
    (suite.Reduced(SumOver(nonces.Keys, Firsts(nonces))), suite.Reduced(SumOver(nonces.Keys, Seconds(nonces))))
  }

  /** The group nonce, falling back to the generator if the sum is at infinity;
      none where the program panics on a zero binding coefficient. */
  function GroupNonce(suite: Suite, halves: (Option<nat>, Option<nat>), binding: nat): Option<nat>
    requires suite.q > 1
  {
    if halves.1.Some? && binding % suite.q == 0 then None else
      var second := if halves.1.Some? then suite.Times(halves.1.value, binding) else None;
      var sum :=
        if halves.0.Some? && second.Some? then suite.Plus(halves.0.value, second.value)
        else if halves.0.Some? then halves.0
        else second;
      Some(if sum.Some? then sum.value else 1)
  }

  /** The binding coefficient, group nonce and challenge of a session. */
  function SessionValues(suite: Suite, msg: Message, nonces: map<nat, Pair>, pk: nat): Option<Session>
    requires suite.q > 1
  {
    var halves := Halves(suite, nonces);
    var binding := suite.noncecoef(Ascending(nonces.Keys), halves.0, halves.1, suite.Even(pk), msg) % suite.q;
    var groupNonce :- GroupNonce(suite, halves, binding);
    var challenge := suite.challenge(suite.Even(groupNonce), suite.Even(pk), msg) % suite.q;
    Some(Session(binding, groupNonce, challenge))
  }

  /** One node's signature share; none where the program panics on a zero it
      takes to be of negligible probability. */
  function SignShare(suite: Suite, msg: Message, sks: nat, nonce: Pair, nonces: map<nat, Pair>, identity: nat, pk: nat)
    : Option<nat>
    requires suite.q > 2
  {
    var s :- SessionValues(suite, msg, nonces, pk);
    SignWith(suite, s, Lambda(suite.q, nonces.Keys, identity), sks, nonce, pk)
  }

  function SignWith(suite: Suite, s: Session, lambda: nat, sks: nat, nonce: Pair, pk: nat): Option<nat>
    requires suite.q > 0
  {
    var first := suite.Signed(suite.odd(s.groupNonce), nonce.0);
    var second := suite.Signed(suite.odd(s.groupNonce), nonce.1);
    var key := suite.Signed(suite.odd(pk), sks);
    var weighted :- suite.Times(key, lambda);
    var share :- suite.Times(weighted, s.challenge);
    var bound :- suite.Times(second, s.binding);
    var sum :- suite.Plus(first, bound);
    suite.Plus(sum, share)
  }

  /** Whether a share fits its node's public key share and nonce; none where
      the session itself cannot be computed. */
  function VerifySignatureShare(suite: Suite, msg: Message, node: nat, pks: nat, share: nat, nonces: map<nat, Pair>,
                                pk: nat): Option<bool>
    requires suite.q > 2
  {
    if node !in nonces then Some(false) else
      var s :- SessionValues(suite, msg, nonces, pk);
      Some(ExpectedPoint(suite, s, Lambda(suite.q, nonces.Keys, node), pks, nonces[node], pk) == Some(share))
  }

  /** The point a valid share must be the logarithm of; none at infinity. */
  function ExpectedPoint(suite: Suite, s: Session, lambda: nat, pks: nat, nonce: Pair, pk: nat): Option<nat>
    requires suite.q > 0
  {
    var second :- suite.Times(nonce.1, s.binding);
    var effective :- suite.Plus(nonce.0, second);
    var signed := suite.Signed(suite.odd(s.groupNonce), effective);
    var key := suite.Signed(suite.odd(pk), pks);
    var coefficient :- suite.Times(lambda, s.challenge);
    var point :- suite.Times(key, coefficient);
    suite.Plus(signed, point)
  }

  /** The shares of the first `n` nodes added up one by one; none if there is
      none or a sum on the way is zero. */
  function AddUp(suite: Suite, shares: map<nat, nat>, walk: seq<nat>, n: nat): Option<nat>
    requires suite.q > 0 && n <= |walk| && forall i :: i in walk ==> i in shares
  {
    if n == 0 then None
    else if n == 1 then Some(shares[walk[0]])
    else
      var accumulator :- AddUp(suite, shares, walk, n - 1);
      suite.Plus(accumulator, shares[walk[n - 1]])
  }

  function AddUpAll(suite: Suite, shares: map<nat, nat>): Option<nat>
    requires suite.q > 0
  {
    AddUp(suite, shares, Ascending(shares.Keys), |Ascending(shares.Keys)|)
  }

  /** The x-only group nonce and the response. */
  function AggregateSignatureShares(suite: Suite, msg: Message, nonces: map<nat, Pair>, shares: map<nat, nat>, pk: nat)
    : Option<Pair>
    requires suite.q > 1
  {
    var s :- SessionValues(suite, msg, nonces, pk);
    var response :- AddUpAll(suite, shares);
    Some((suite.Even(s.groupNonce), response))
  }

  /** The "Verification" algorithm of BIP 340: the response point less the
      challenge times the key is the nonce point, finite and with even y. */
  predicate Verify(suite: Suite, msg: Message, signature: Pair, pk: nat)
    requires suite.q > 0
  {
    var key := suite.Even(pk);
    var e := suite.challenge(signature.0, key, msg) % suite.q;
    var point := (signature.1 - e * key) % suite.q;
    signature.1 < suite.q && point != 0 && !suite.odd(point) && point == signature.0
  }

  /** The key recovered from shares; none if a sum on the way is zero. */
  function InterpolateSecretKey(suite: Suite, shares: map<nat, nat>): Option<nat>
    requires suite.q > 2
  {
    AddUpAll(suite, Weighted(suite, shares))
  }

  function Weighted(suite: Suite, shares: map<nat, nat>): map<nat, nat>
    requires suite.q > 2
  {
    map i | i in shares :: shares[i] * Lambda(suite.q, shares.Keys, i) % suite.q
  }
}

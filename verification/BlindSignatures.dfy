/** Threshold blind signatures over a pairing group. Points of both groups are
    represented by their discrete logarithms, so the pairing multiplies. */
module BlindSignatures {
  import opened Ordered
  import opened Field
  import opened Interpolation

  function Pairing(q: nat, a: nat, b: nat): nat
    requires q > 0
  {
    a * b % q
  }

  function BlindNonce(q: nat, nonce: nat, blindingKey: nat): nat
    requires q > 0
  {
    nonce * blindingKey % q
  }

  function SignNonce(q: nat, blinded: nat, sks: nat): nat
    requires q > 0
  {
    blinded * sks % q
  }

  predicate VerifySignatureShare(q: nat, blinded: nat, share: nat, pks: nat)
    requires q > 0
  {
    Pairing(q, blinded, pks) == Pairing(q, share, 1)
  }

  /** One factor of a multiplier: another node's point over the difference. */
  function Factor(q: nat, i: nat): nat -> int
    requires q > 2
  {
    (j: nat) => (j + 1) * Inverse(q, (j - i) % q)
  }

  /** The multiplier of node `i`; none for a lone node, where there is no factor
      to start from. */
  function Multiplier(q: nat, nodes: set<nat>, i: nat): Option<nat>
    requires q > 2
  {
    if nodes - {i} == {} then None else Some(ProdOver(nodes - {i}, Factor(q, i)) % q)
  }

  /** A lone share is the signature; otherwise the shares are combined by their
      multipliers. None if there is no share. */
  function AggregateSignatureShares(q: nat, shares: map<nat, nat>): Option<nat>
    requires q > 2
  {
    if |shares| == 1 then Some(shares[Least(shares.Keys)])
    else if shares == map[] then None
    else Some(SumOver(shares.Keys, WeightedShare(q, shares)) % q)
  }

  function WeightedShare(q: nat, shares: map<nat, nat>): nat -> int
    requires q > 2
  {
    (i: nat) =>
      if i in shares && Multiplier(q, shares.Keys, i).Some?
      then Multiplier(q, shares.Keys, i).value * shares[i] % q
      else 0
  }

  /** None where the program panics on a zero blinding key. */
  function UnblindSignature(q: nat, blindingKey: nat, signature: nat): Option<nat>
    requires q > 2
  {
    if blindingKey % q == 0 then None else Some(signature * Inverse(q, blindingKey % q) % q)
  }

  predicate Verify(q: nat, nonce: nat, signature: nat, pk: nat)
    requires q > 0
  {
    Pairing(q, nonce, pk) == Pairing(q, signature, 1)
  }

  // ----- the multipliers are Lagrange weights -----

  function Cleared(q: nat, i: nat): nat -> int
    requires q > 2
  {
    (j: nat) => GapTo(i)(j) * Factor(q, i)(j)
  }

  lemma FactorClears(q: nat, nodes: set<nat>, i: nat, j: nat)
    requires Points(q, nodes) && j in nodes && i + 1 < q && j != i
    ensures Cong(q, Cleared(q, i)(j), PointOf(j))
  {
    var gap := j - i;
    var inv := Inverse(q, gap % q);
    DifferenceNonzero(q, j, i);
    InverseInverts(q, gap % q);
    CongMod(q, gap);
    CongScale(q, inv, gap, gap % q);
    CongTrans(q, gap * inv, (gap % q) * inv, 1);
    CongScale(q, j + 1, gap * inv, 1);
    ClearedAt(q, i, j, inv);
  }

  lemma ClearedAt(q: nat, i: nat, j: nat, inv: nat)
    requires q > 2 && inv == Inverse(q, (j - i) % q)
    ensures Cleared(q, i)(j) == (j + 1) * ((j - i) * inv)
  {
    assert GapTo(i)(j) == j - i && Factor(q, i)(j) == (j + 1) * inv;
    assert (j - i) * ((j + 1) * inv) == (j + 1) * ((j - i) * inv);
  }

  /** The factors are combined into the same multipliers the Schnorr scheme
      uses, though there the inversion comes last. */
  lemma MultiplierIsWeight(q: nat, nodes: set<nat>, i: nat)
    requires Points(q, nodes) && i in nodes && nodes - {i} != {}
    ensures Cong(q, Multiplier(q, nodes, i).value, Lambda(q, nodes, i))
  {
    var others, all := nodes - {i}, ProdOver(nodes - {i}, Factor(q, i));
    forall j | j in others ensures Cong(q, Cleared(q, i)(j), PointOf(j)) {
      FactorClears(q, nodes, i, j);
    }
    ProdCong(q, others, Cleared(q, i), PointOf);
    ProdSplit(others, Cleared(q, i), GapTo(i), Factor(q, i));
    assert IsWeight(q, nodes, i, all);
    LambdaIsWeight(q, nodes, i);
    WeightsAgree(q, nodes, i, all, Lambda(q, nodes, i));
    CongMod(q, all);
    CongTrans(q, Multiplier(q, nodes, i).value, all, Lambda(q, nodes, i));
  }

  // ----- the round trip -----

  /** Every share is the blinded nonce times the node's value of the polynomial. */
  ghost predicate SharesOf(q: nat, f: seq<int>, blinded: nat, shares: map<nat, nat>)
    requires q > 0
  {
    forall i :: i in shares ==> shares[i] == SignNonce(q, blinded, Eval(f, i + 1) % q)
  }

  function Lifted(blinded: nat, f: seq<int>): nat -> int {
    (i: nat) => blinded * ValuesOf(f)(i)
  }

  lemma ShareLifts(q: nat, f: seq<int>, blinded: nat, shares: map<nat, nat>, i: nat)
    requires q > 0 && SharesOf(q, f, blinded, shares) && i in shares
    ensures Cong(q, shares[i], blinded * Eval(f, i + 1)) && shares[i] < q
  {
    var v := Eval(f, i + 1);
    CongMod(q, v);
    CongScale(q, blinded, v % q, v);
    CongMod(q, blinded * (v % q));
    CongTrans(q, shares[i], blinded * (v % q), blinded * v);
  }

  lemma WeightedLifts(q: nat, f: seq<int>, blinded: nat, shares: map<nat, nat>, i: nat)
    requires Points(q, shares.Keys) && i in shares && shares.Keys - {i} != {}
    requires SharesOf(q, f, blinded, shares)
    ensures Cong(q, WeightedShare(q, shares)(i), Terms(q, shares.Keys, Lifted(blinded, f))(i))
  {
    var m, lambda := Multiplier(q, shares.Keys, i).value, Lambda(q, shares.Keys, i);
    MultiplierIsWeight(q, shares.Keys, i);
    ShareLifts(q, f, blinded, shares, i);
    CongMul(q, m, lambda, shares[i], blinded * Eval(f, i + 1));
    CongMod(q, m * shares[i]);
    CongTrans(q, m * shares[i] % q, m * shares[i], lambda * (blinded * Eval(f, i + 1)));
    LiftedTerm(q, shares.Keys, f, blinded, i);
  }

  lemma LiftedTerm(q: nat, nodes: set<nat>, f: seq<int>, blinded: nat, i: nat)
    requires q > 2
    ensures Terms(q, nodes, Lifted(blinded, f))(i) == Lambda(q, nodes, i) * (blinded * Eval(f, i + 1))
  {
    assert ValuesOf(f)(i) == Eval(f, i + 1);
    assert Lifted(blinded, f)(i) == blinded * Eval(f, i + 1);
  }

  /** Signing a blinded nonce with at least a threshold of shares signs it with
      the mint's key, the lone share of a one-of-one mint included. */
  lemma AggregateIsSignature(q: nat, f: seq<int>, blinded: nat, shares: map<nat, nat>)
    requires Points(q, shares.Keys) && shares != map[] && |f| <= |shares| && SharesOf(q, f, blinded, shares)
    ensures AggregateSignatureShares(q, shares).Some?
    ensures Cong(q, AggregateSignatureShares(q, shares).value, blinded * Eval(f, 0))
  {
    if |shares| == 1 {
      var i := Least(shares.Keys);
      ShareLifts(q, f, blinded, shares, i);
      ConstantPolynomial(f, i + 1);
    } else {
      CombinedIsSignature(q, f, blinded, shares);
    }
  }

  lemma ConstantPolynomial(f: seq<int>, x: int)
    requires |f| <= 1
    ensures Eval(f, x) == Eval(f, 0)
  {
    if f != [] {
      assert Eval(f[1..], x) == 0 && Eval(f[1..], 0) == 0;
    }
  }

  lemma CombinedIsSignature(q: nat, f: seq<int>, blinded: nat, shares: map<nat, nat>)
    requires Points(q, shares.Keys) && |shares| > 1 && |f| <= |shares| && SharesOf(q, f, blinded, shares)
    ensures Cong(q, SumOver(shares.Keys, WeightedShare(q, shares)) % q, blinded * Eval(f, 0))
  {
    var nodes, sum := shares.Keys, SumOver(shares.Keys, WeightedShare(q, shares));
    assert |nodes| == |shares|;
    forall i | i in nodes
      ensures Cong(q, WeightedShare(q, shares)(i), Terms(q, nodes, Lifted(blinded, f))(i))
    {
      OthersRemain(nodes, i);
      WeightedLifts(q, f, blinded, shares, i);
    }
    SumCong(q, nodes, WeightedShare(q, shares), Terms(q, nodes, Lifted(blinded, f)));
    CombineLinear(q, nodes, Lifted(blinded, f), blinded, ValuesOf(f), 0, One);
    Interpolates(q, nodes, f);
    CongMod(q, sum);
    Unfactor(q, sum % q, sum, Combine(q, nodes, Lifted(blinded, f)), blinded, Combine(q, nodes, ValuesOf(f)),
             Eval(f, 0));
  }

  lemma OthersRemain(nodes: set<nat>, i: nat)
    requires |nodes| > 1 && i in nodes
    ensures nodes - {i} != {}
  {
    assert |nodes - {i}| == |nodes| - 1;
  }

  lemma Unfactor(q: nat, r: int, sum: int, combined: int, blinded: nat, values: int, key: int)
    requires q > 0 && Cong(q, r, sum) && Cong(q, sum, combined) && combined == blinded * values + 0
    requires Cong(q, values, key)
    ensures Cong(q, r, blinded * key)
  {
    CongScale(q, blinded, values, key);
    CongTrans(q, r, sum, combined);
    CongTrans(q, r, combined, blinded * key);
  }

  /** Blind, sign, aggregate, unblind: the result is the nonce signed with the
      mint's key, and it verifies. Only a zero blinding key stands in the way. */
  lemma BlindRoundTrip(q: nat, f: seq<int>, nonce: nat, blindingKey: nat, shares: map<nat, nat>)
    requires Points(q, shares.Keys) && shares != map[] && |f| <= |shares|
    requires SharesOf(q, f, BlindNonce(q, nonce, blindingKey), shares)
    ensures AggregateSignatureShares(q, shares).Some?
    ensures var signature := UnblindSignature(q, blindingKey, AggregateSignatureShares(q, shares).value);
      && (signature.None? <==> blindingKey % q == 0)
      && (signature.Some? ==>
            && signature.value == nonce * Eval(f, 0) % q
            && Verify(q, nonce, signature.value, Eval(f, 0) % q))
  {
    var blinded := BlindNonce(q, nonce, blindingKey);
    AggregateIsSignature(q, f, blinded, shares);
    if blindingKey % q != 0 {
      var sum := AggregateSignatureShares(q, shares).value;
      Unblinds(q, nonce, blindingKey, Eval(f, 0), sum, Inverse(q, blindingKey % q));
      VerifiesUnder(q, nonce, Eval(f, 0));
    }
  }

  lemma Unblinds(q: nat, nonce: nat, blindingKey: nat, key: int, sum: nat, inv: nat)
    requires IsPrime(q) && q > 2 && blindingKey % q != 0 && inv == Inverse(q, blindingKey % q)
    requires Cong(q, sum, BlindNonce(q, nonce, blindingKey) * key)
    ensures sum * inv % q == nonce * key % q
  {
    var blinded := BlindNonce(q, nonce, blindingKey);
    CongMod(q, nonce * blindingKey);
    CongScale(q, key, blinded, nonce * blindingKey);
    CongTrans(q, sum, blinded * key, (nonce * blindingKey) * key);
    CongScale(q, inv, sum, (nonce * blindingKey) * key);
    InverseInverts(q, blindingKey % q);
    CongMod(q, blindingKey);
    CongScale(q, inv, blindingKey, blindingKey % q);
    CongTrans(q, blindingKey * inv, (blindingKey % q) * inv, 1);
    CongScale(q, nonce * key, blindingKey * inv, 1);
    assert ((nonce * blindingKey) * key) * inv == (nonce * key) * (blindingKey * inv);
    CongTrans(q, sum * inv, (nonce * key) * (blindingKey * inv), nonce * key);
    CongSame(q, sum * inv, nonce * key);
  }

  lemma VerifiesUnder(q: nat, nonce: nat, key: int)
    requires q > 0
    ensures Verify(q, nonce, nonce * key % q, key % q)
  {
    CongMod(q, key);
    CongScale(q, nonce, key % q, key);
    CongSame(q, nonce * (key % q), nonce * key);
    MulMod(q, nonce * key, 1);
  }

  /** A share verifies under its node's public key if and only if it is what the
      node's signature on the blinded nonce is. */
  lemma ShareVerifies(q: nat, blinded: nat, share: nat, sks: nat)
    requires q > 0 && share < q
    ensures VerifySignatureShare(q, blinded, share, sks) <==> share == SignNonce(q, blinded, sks)
  {
    ModUnique(q, share, 0, share);
  }

  /** A signature verifies if and only if it is the nonce signed with the key. */
  lemma SignatureVerifies(q: nat, nonce: nat, signature: nat, key: nat)
    requires q > 0 && signature < q
    ensures Verify(q, nonce, signature, key) <==> signature == nonce * key % q
  {
    ModUnique(q, signature, 0, signature);
  }

  /** Blinding hides the nonce perfectly: each nonce is taken to each blinded one
      by exactly one blinding key. */
  lemma BlindingHides(q: nat, nonce: nat, blinded: nat) returns (key: nat)
    requires IsPrime(q) && q > 2 && 0 < nonce < q && 0 < blinded < q
    ensures 0 < key < q && BlindNonce(q, nonce, key) == blinded
    ensures forall k :: 0 < k < q && BlindNonce(q, nonce, k) == blinded ==> k == key
  {
    var inv := Inverse(q, nonce);
    key := blinded * inv % q;
    InverseInverts(q, nonce);
    CongMod(q, blinded * inv);
    CongScale(q, nonce, key, blinded * inv);
    CongScale(q, blinded, nonce * inv, 1);
    assert nonce * (blinded * inv) == blinded * (nonce * inv);
    CongTrans(q, nonce * key, blinded * (nonce * inv), blinded);
    CongSame(q, nonce * key, blinded);
    ModUnique(q, blinded, 0, blinded);
    if key == 0 {
      ModUnique(q, nonce * key, 0, 0);
      assert false;
    }
    forall k | 0 < k < q && BlindNonce(q, nonce, k) == blinded ensures k == key {
      OneKey(q, nonce, k, key);
    }
  }

  lemma OneKey(q: nat, nonce: nat, k: nat, l: nat)
    requires IsPrime(q) && 0 < nonce < q && k < q && l < q && BlindNonce(q, nonce, k) == BlindNonce(q, nonce, l)
    ensures k == l
  {
    CongMod(q, nonce * k);
    CongMod(q, nonce * l);
    CongTrans(q, nonce * k, nonce * k % q, nonce * l);
    CongRefl(q, nonce * l);
    CongAdd(q, nonce * k, nonce * l, nonce * l, nonce * l);
    assert nonce * (k - l) == nonce * k - nonce * l;
    Euclid(q, nonce, k - l);
    CongRefl(q, l);
    CongAdd(q, k - l, 0, l, l);
    CongSame(q, k, l);
    ModUnique(q, k, 0, k);
    ModUnique(q, l, 0, l);
  }
}

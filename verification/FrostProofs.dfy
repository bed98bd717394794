/** FROST correctness: what a share is as a scalar, that verification accepts it
    and nothing else, and when the aggregate verifies. */
module FrostProofs {
  import opened Ordered
  import opened Field
  import opened Interpolation
  import opened Frost

  function Sign(flip: bool): int {
    if flip then -1 else 1
  }

  lemma SignedCong(suite: Suite, flip: bool, x: nat)
    requires suite.q > 0
    ensures Cong(suite.q, suite.Signed(flip, x), Sign(flip) * x)
  {
    if flip {
      NegateCong(suite, x);
    } else {
      CongRefl(suite.q, x);
    }
  }

  lemma NegateCong(suite: Suite, x: nat)
    requires suite.q > 0
    ensures Cong(suite.q, suite.Negate(x), -1 * x)
  {
    var q, r := suite.q, x % suite.q;
    CongMod(q, x);
    CongMod(q, q - r);
    CongBy(q, q - r, -r, 1);
    CongScale(q, -1, r, x);
    CongTrans(q, q - r, -1 * r, -1 * x);
    CongTrans(q, suite.Negate(x), q - r, -1 * x);
  }

  lemma ReducedSame(suite: Suite, a: int, b: int)
    requires suite.q > 0 && Cong(suite.q, a, b)
    ensures suite.Reduced(a) == suite.Reduced(b)
  {
    CongSame(suite.q, a, b);
  }

  lemma ReducedCong(suite: Suite, a: int)
    requires suite.q > 0 && suite.Reduced(a).Some?
    ensures Cong(suite.q, suite.Reduced(a).value, a) && IsPoint(suite, suite.Reduced(a).value)
  {
    CongMod(suite.q, a);
  }

  lemma TimesReduced(suite: Suite, x: nat, y: nat, a: int, b: int)
    requires suite.q > 0 && Cong(suite.q, x, a) && Cong(suite.q, y, b)
    ensures suite.Times(x, y) == suite.Reduced(a * b)
  {
    CongMul(suite.q, x, a, y, b);
    ReducedSame(suite, x * y, a * b);
  }

  lemma PlusReduced(suite: Suite, x: nat, y: nat, a: int, b: int)
    requires suite.q > 0 && Cong(suite.q, x, a) && Cong(suite.q, y, b)
    ensures suite.Plus(x, y) == suite.Reduced(a + b)
  {
    CongAdd(suite.q, x, a, y, b);
    ReducedSame(suite, x + y, a + b);
  }

  /** A product with a nonzero factor vanishes only with the other. */
  lemma ReducedProduct(suite: Suite, a: int, b: int)
    requires IsPrime(suite.q) && a % suite.q != 0
    ensures suite.Reduced(a * b).None? <==> suite.Reduced(b).None?
  {
    if b % suite.q == 0 {
      CongScale(suite.q, a, b, 0);
      assert a * 0 == 0;
      CongSame(suite.q, a * b, 0);
      ModUnique(suite.q, 0, 0, 0);
    } else {
      NonzeroProduct(suite.q, a, b);
    }
  }

  lemma UnitNonzero(suite: Suite, flip: bool)
    requires suite.Sound()
    ensures Sign(flip) % suite.q != 0
  {
    if flip {
      ModUnique(suite.q, -1, -1, suite.q - 1);
    } else {
      ModUnique(suite.q, 1, 0, 1);
    }
  }

  /** A share as a scalar: the node's nonce and its weighted key, each with the
      sign its x-only counterpart asks for; none exactly where the binding
      coefficient, the challenge or the node's effective nonce vanishes. */
  function ShareOf(suite: Suite, s: Session, lambda: nat, sks: nat, nonce: Pair, pk: nat): Option<nat>
    requires suite.q > 0
  {
    if s.binding % suite.q == 0 || s.challenge % suite.q == 0 || (nonce.0 + nonce.1 * s.binding) % suite.q == 0
    then None
    else suite.Reduced(ShareValue(suite, s, lambda, sks, nonce, pk))
  }

  function ShareValue(suite: Suite, s: Session, lambda: nat, sks: nat, nonce: Pair, pk: nat): int {
    Sign(suite.odd(s.groupNonce)) * (nonce.0 + nonce.1 * s.binding) +
    Sign(suite.odd(pk)) * sks * lambda * s.challenge
  }

  lemma KeyPart(suite: Suite, lambda: nat, sks: nat, e: nat, flip: bool)
    requires suite.Sound() && lambda % suite.q != 0 && sks % suite.q != 0
    ensures var weighted := suite.Times(suite.Signed(flip, sks), lambda);
      && weighted.Some?
      && suite.Times(weighted.value, e) == suite.Reduced(Sign(flip) * sks * lambda * e)
      && (suite.Times(weighted.value, e).None? <==> e % suite.q == 0)
  {
    var key := Sign(flip) * sks;
    SignedCong(suite, flip, sks);
    UnitNonzero(suite, flip);
    NonzeroProduct(suite.q, Sign(flip), sks);
    NonzeroProduct(suite.q, key, lambda);
    CongRefl(suite.q, lambda);
    CongRefl(suite.q, e);
    TimesReduced(suite, suite.Signed(flip, sks), lambda, key, lambda);
    ReducedCong(suite, key * lambda);
    TimesReduced(suite, suite.Times(suite.Signed(flip, sks), lambda).value, e, key * lambda, e);
    ReducedProduct(suite, key * lambda, e);
  }

  /** The two halves of a nonce, bound and signed. */
  lemma NoncePart(suite: Suite, nonce: Pair, binding: nat, flip: bool)
    requires suite.Sound() && IsPoint(suite, nonce.0) && IsPoint(suite, nonce.1)
    ensures var bound := suite.Times(suite.Signed(flip, nonce.1), binding);
      && (bound.None? <==> binding % suite.q == 0)
      && (bound.Some? ==>
            suite.Plus(suite.Signed(flip, nonce.0), bound.value) ==
            suite.Reduced(Sign(flip) * (nonce.0 + nonce.1 * binding)))
  {
    var half := Sign(flip) * nonce.1;
    ModUnique(suite.q, nonce.1, 0, nonce.1);
    SignedCong(suite, flip, nonce.0);
    SignedCong(suite, flip, nonce.1);
    UnitNonzero(suite, flip);
    NonzeroProduct(suite.q, Sign(flip), nonce.1);
    CongRefl(suite.q, binding);
    TimesReduced(suite, suite.Signed(flip, nonce.1), binding, half, binding);
    ReducedProduct(suite, half, binding);
    if suite.Reduced(half * binding).Some? {
      ReducedCong(suite, half * binding);
      PlusReduced(suite, suite.Signed(flip, nonce.0), suite.Reduced(half * binding).value, Sign(flip) * nonce.0,
                  half * binding);
      assert Sign(flip) * nonce.0 + half * binding == Sign(flip) * (nonce.0 + nonce.1 * binding);
    }
  }

  /** What the signer computes. */
  lemma SignerComputes(suite: Suite, s: Session, lambda: nat, sks: nat, nonce: Pair, pk: nat)
    requires suite.Sound() && lambda % suite.q != 0 && sks % suite.q != 0
    requires IsPoint(suite, nonce.0) && IsPoint(suite, nonce.1)
    ensures SignWith(suite, s, lambda, sks, nonce, pk) == ShareOf(suite, s, lambda, sks, nonce, pk)
  {
    var flip, effective := suite.odd(s.groupNonce), nonce.0 + nonce.1 * s.binding;
    var keyed := Sign(suite.odd(pk)) * sks * lambda * s.challenge;
    KeyPart(suite, lambda, sks, s.challenge, suite.odd(pk));
    NoncePart(suite, nonce, s.binding, flip);
    UnitNonzero(suite, flip);
    ReducedProduct(suite, Sign(flip), effective);
    if SignWith(suite, s, lambda, sks, nonce, pk).Some? || ShareOf(suite, s, lambda, sks, nonce, pk).Some? {
      ReducedCong(suite, keyed);
      ReducedCong(suite, Sign(flip) * effective);
      PlusReduced(suite, suite.Reduced(Sign(flip) * effective).value, suite.Reduced(keyed).value,
                  Sign(flip) * effective, keyed);
    }
  }

  /** The verifier's coefficient on the public key share. */
  lemma KeyPointPart(suite: Suite, lambda: nat, pks: nat, e: nat, flip: bool)
    requires suite.Sound() && lambda % suite.q != 0 && pks % suite.q != 0
    ensures var coefficient := suite.Times(lambda, e);
      && (coefficient.None? <==> e % suite.q == 0)
      && (coefficient.Some? ==>
            && suite.Times(suite.Signed(flip, pks), coefficient.value) == suite.Reduced(Sign(flip) * pks * lambda * e)
            && suite.Reduced(Sign(flip) * pks * lambda * e).Some?)
  {
    var key := Sign(flip) * pks;
    SignedCong(suite, flip, pks);
    UnitNonzero(suite, flip);
    NonzeroProduct(suite.q, Sign(flip), pks);
    ReducedProduct(suite, lambda, e);
    if suite.Times(lambda, e).Some? {
      ReducedCong(suite, lambda * e);
      TimesReduced(suite, suite.Signed(flip, pks), suite.Times(lambda, e).value, key, lambda * e);
      assert key * (lambda * e) == Sign(flip) * pks * lambda * e;
      ReducedProduct(suite, key, lambda * e);
    }
  }

  /** The verifier's nonce point. */
  lemma NoncePointPart(suite: Suite, nonce: Pair, binding: nat, flip: bool)
    requires suite.Sound() && IsPoint(suite, nonce.0) && IsPoint(suite, nonce.1)
    ensures var second := suite.Times(nonce.1, binding);
      && (second.None? <==> binding % suite.q == 0)
      && (second.Some? ==>
            suite.Plus(nonce.0, second.value) == suite.Reduced(nonce.0 + nonce.1 * binding))
  {
    ModUnique(suite.q, nonce.1, 0, nonce.1);
    ReducedProduct(suite, nonce.1, binding);
    if suite.Times(nonce.1, binding).Some? {
      ReducedCong(suite, nonce.1 * binding);
      CongRefl(suite.q, nonce.0);
      PlusReduced(suite, nonce.0, suite.Times(nonce.1, binding).value, nonce.0, nonce.1 * binding);
    }
  }

  /** What the verifier expects. */
  lemma VerifierExpects(suite: Suite, s: Session, lambda: nat, sks: nat, nonce: Pair, pk: nat)
    requires suite.Sound() && lambda % suite.q != 0 && sks % suite.q != 0
    requires IsPoint(suite, nonce.0) && IsPoint(suite, nonce.1)
    ensures ExpectedPoint(suite, s, lambda, sks, nonce, pk) == ShareOf(suite, s, lambda, sks, nonce, pk)
  {
    var flip, effective := suite.odd(s.groupNonce), nonce.0 + nonce.1 * s.binding;
    var keyed := Sign(suite.odd(pk)) * sks * lambda * s.challenge;
    NoncePointPart(suite, nonce, s.binding, flip);
    KeyPointPart(suite, lambda, sks, s.challenge, suite.odd(pk));
    if ExpectedPoint(suite, s, lambda, sks, nonce, pk).Some? || ShareOf(suite, s, lambda, sks, nonce, pk).Some? {
      ReducedCong(suite, effective);
      var point := suite.Reduced(effective).value;
      SignedCong(suite, flip, point);
      CongScale(suite.q, Sign(flip), point, effective);
      CongTrans(suite.q, suite.Signed(flip, point), Sign(flip) * point, Sign(flip) * effective);
      ReducedCong(suite, keyed);
      PlusReduced(suite, suite.Signed(flip, point), suite.Reduced(keyed).value, Sign(flip) * effective, keyed);
    }
  }

  lemma NodesArePoints(suite: Suite, nonces: map<nat, Pair>)
    requires suite.Sound() && PublicNonces(suite, nonces)
    ensures Points(suite.q, nonces.Keys)
  {
  }

  /** A share verifies if and only if it is the one the node's signer computes:
      honest shares pass, and no other value does. */
  lemma ShareVerifies(suite: Suite, msg: Message, node: nat, sks: nat, nonces: map<nat, Pair>, pk: nat, share: nat)
    requires suite.Sound() && PublicNonces(suite, nonces) && node in nonces && IsPoint(suite, sks)
    requires SessionValues(suite, msg, nonces, pk).Some?
    ensures VerifySignatureShare(suite, msg, node, sks, share, nonces, pk)
      == Some(SignShare(suite, msg, sks, nonces[node], nonces, node, pk) == Some(share))
  {
    NodesArePoints(suite, nonces);
    var lambda := Lambda(suite.q, nonces.Keys, node);
    LambdaIsWeight(suite.q, nonces.Keys, node);
    ModUnique(suite.q, lambda, 0, lambda);
    ModUnique(suite.q, sks, 0, sks);
    var s := SessionValues(suite, msg, nonces, pk).value;
    SignerComputes(suite, s, lambda, sks, nonces[node], pk);
    VerifierExpects(suite, s, lambda, sks, nonces[node], pk);
  }

  /** Who is not of the signing set has no valid share. */
  lemma OutsiderRejected(suite: Suite, msg: Message, node: nat, pks: nat, nonces: map<nat, Pair>, pk: nat, share: nat)
    requires suite.q > 2 && node !in nonces
    ensures VerifySignatureShare(suite, msg, node, pks, share, nonces, pk) == Some(false)
  {
  }

  // ----- adding up -----

  function ValueAt(shares: map<nat, nat>): nat -> int {
    (i: nat) => if i in shares then shares[i] else 0
  }

  lemma SharesOneMore(shares: map<nat, nat>, walk: seq<nat>, i: nat)
    requires i < |walk| && Rising(walk) && walk[i] in shares
    ensures SumOfFirst(walk, i + 1, ValueAt(shares)) == SumOfFirst(walk, i, ValueAt(shares)) + shares[walk[i]]
  {
    SumOneMore(walk, i, ValueAt(shares));
  }

  lemma {:induction false} AddUpSum(suite: Suite, shares: map<nat, nat>, walk: seq<nat>, n: nat)
    requires suite.q > 0 && 0 < n <= |walk| && Rising(walk)
    requires forall k :: k in walk ==> k in shares && shares[k] < suite.q
    requires AddUp(suite, shares, walk, n).Some?
    ensures SumsTo(suite, AddUp(suite, shares, walk, n).value, SumOfFirst(walk, n, ValueAt(shares)))
    decreases n
  {
    var last := shares[walk[n - 1]];
    SharesOneMore(shares, walk, n - 1);
    if n == 1 {
      NothingVisited(walk, ValueAt(shares));
      CongRefl(suite.q, last);
    } else {
      AddUpSum(suite, shares, walk, n - 1);
      AddLast(suite, AddUp(suite, shares, walk, n - 1).value, last, SumOfFirst(walk, n - 1, ValueAt(shares)),
              AddUp(suite, shares, walk, n).value, SumOfFirst(walk, n, ValueAt(shares)));
    }
  }

  lemma NothingVisited(walk: seq<nat>, f: nat -> int)
    ensures SumOfFirst(walk, 0, f) == 0
  {
    assert Visited(walk, 0) == {};
  }

  predicate SumsTo(suite: Suite, r: nat, sum: int)
    requires suite.q > 0
  {
    r < suite.q && Cong(suite.q, r, sum)
  }

  lemma AddLast(suite: Suite, before: nat, last: nat, sum: int, after: nat, total: int)
    requires suite.q > 0 && SumsTo(suite, before, sum) && suite.Plus(before, last) == Some(after) && total == sum + last
    ensures SumsTo(suite, after, total)
  {
    CongRefl(suite.q, last);
    PlusReduced(suite, before, last, sum, last);
    ReducedCong(suite, total);
  }

  lemma AllAddUp(suite: Suite, shares: map<nat, nat>)
    requires suite.q > 0 && forall k :: k in shares ==> shares[k] < suite.q
    requires AddUpAll(suite, shares).Some?
    ensures SumsTo(suite, AddUpAll(suite, shares).value, SumOver(shares.Keys, ValueAt(shares)))
  {
    AscendingRises(shares.Keys);
    if shares != map[] {
      AddUpSum(suite, shares, Ascending(shares.Keys), |Ascending(shares.Keys)|);
    }
    SumAll(shares.Keys, ValueAt(shares));
  }

  /** The sum of the first `n` values along a walk. */
  function Total(walk: seq<nat>, value: nat -> int, n: nat): int
    requires n <= |walk|
  {
    if n == 0 then 0 else Total(walk, value, n - 1) + value(walk[n - 1])
  }

  /** No sum of the first two or more values of a walk is a multiple of `q`. */
  ghost predicate SumsNonzero(q: nat, walk: seq<nat>, value: nat -> int, n: nat)
    requires q > 0 && n <= |walk|
  {
    forall m :: 2 <= m <= n ==> NonzeroAt(q, walk, value, m)
  }

  predicate NonzeroAt(q: nat, walk: seq<nat>, value: nat -> int, m: nat)
    requires q > 0 && m <= |walk|
  {
    Total(walk, value, m) % q != 0
  }

  /** Adding up panics exactly where a sum on the way is zero, and else reaches
      the sum of what is added. */
  lemma {:induction false} AddUpIff(suite: Suite, shares: map<nat, nat>, value: nat -> int, walk: seq<nat>, n: nat)
    requires suite.q > 0 && 0 < n <= |walk|
    requires forall k :: k in walk ==> k in shares && shares[k] < suite.q && Cong(suite.q, shares[k], value(k))
    ensures AddUp(suite, shares, walk, n).Some? <==> SumsNonzero(suite.q, walk, value, n)
    ensures AddUp(suite, shares, walk, n).Some? ==>
      SumsTo(suite, AddUp(suite, shares, walk, n).value, Total(walk, value, n))
    decreases n
  {
    var k := walk[n - 1];
    assert k in walk;
    if n == 1 {
      assert Total(walk, value, 1) == Total(walk, value, 0) + value(k);
    } else {
      AddUpIff(suite, shares, value, walk, n - 1);
      var before := AddUp(suite, shares, walk, n - 1);
      if before.Some? {
        OneMoreSum(suite, before.value, shares[k], Total(walk, value, n - 1), value(k));
        assert NonzeroAt(suite.q, walk, value, n) <==> suite.Plus(before.value, shares[k]).Some?;
      }
    }
  }

  lemma OneMoreSum(suite: Suite, before: nat, last: nat, sum: int, x: int)
    requires suite.q > 0 && SumsTo(suite, before, sum) && Cong(suite.q, last, x)
    ensures suite.Plus(before, last).Some? <==> (sum + x) % suite.q != 0
    ensures suite.Plus(before, last).Some? ==> SumsTo(suite, suite.Plus(before, last).value, sum + x)
  {
    CongAdd(suite.q, before, sum, last, x);
    CongSame(suite.q, before + last, sum + x);
    CongMod(suite.q, sum + x);
  }

  lemma AllAddUpIff(suite: Suite, shares: map<nat, nat>, value: nat -> int)
    requires suite.q > 0 && shares != map[]
    requires forall k :: k in shares ==> shares[k] < suite.q && Cong(suite.q, shares[k], value(k))
    ensures var walk := Ascending(shares.Keys);
      AddUpAll(suite, shares).Some? <==> SumsNonzero(suite.q, walk, value, |walk|)
  {
    var walk := Ascending(shares.Keys);
    assert |walk| == |shares.Keys|;
    forall k | k in walk ensures k in shares && shares[k] < suite.q && Cong(suite.q, shares[k], value(k)) {
      assert k in shares.Keys;
    }
    AddUpIff(suite, shares, value, walk, |walk|);
  }

  // ----- the group nonce -----

  /** The sum of the bound nonces of the signing set. */
  function NonceSum(nonces: map<nat, Pair>, binding: nat): int {
    SumOver(nonces.Keys, Firsts(nonces)) + SumOver(nonces.Keys, Seconds(nonces)) * binding
  }

  lemma GroupNonceIs(suite: Suite, nonces: map<nat, Pair>, binding: nat)
    requires suite.Sound() && GroupNonce(suite, Halves(suite, nonces), binding).Some?
    ensures GroupNonce(suite, Halves(suite, nonces), binding) ==
      Some(OrGenerator(suite.Reduced(NonceSum(nonces, binding))))
  {
    var a, b := SumOver(nonces.Keys, Firsts(nonces)), SumOver(nonces.Keys, Seconds(nonces));
    if suite.Reduced(b).None? {
      DropZero(suite, b, binding, a);
    } else {
      BoundHalf(suite, b, binding);
      AddHalves(suite, a, b * binding);
    }
  }

  /** In numbers: the sum of the bound nonces, or the generator where it is
      infinite. */
  lemma GroupNonceValue(suite: Suite, nonces: map<nat, Pair>, binding: nat)
    requires suite.Sound() && PublicNonces(suite, nonces)
    ensures GroupNonce(suite, Halves(suite, nonces), binding).None? <==>
      SumOver(nonces.Keys, Seconds(nonces)) % suite.q != 0 && binding % suite.q == 0
    ensures var sum := SumOver(nonces.Keys, Firsts(nonces)) + SumOver(nonces.Keys, Seconds(nonces)) * binding;
      GroupNonce(suite, Halves(suite, nonces), binding).Some? ==>
        GroupNonce(suite, Halves(suite, nonces), binding).value == if sum % suite.q == 0 then 1 else sum % suite.q
  {
    if GroupNonce(suite, Halves(suite, nonces), binding).Some? {
      GroupNonceIs(suite, nonces, binding);
    }
  }

  function OrGenerator(point: Option<nat>): nat {
    if point.Some? then point.value else 1
  }

  lemma ZeroCong(q: nat, a: int)
    requires q > 0 && a % q == 0
    ensures Cong(q, a, 0)
  {
  }

  lemma DropZero(suite: Suite, b: int, binding: nat, a: int)
    requires suite.q > 0 && b % suite.q == 0
    ensures suite.Reduced(a + b * binding) == suite.Reduced(a)
  {
    var c := b * binding;
    ZeroCong(suite.q, b);
    CongScale(suite.q, binding, b, 0);
    assert Cong(suite.q, c, 0);
    CongRefl(suite.q, a);
    CongAdd(suite.q, a, a, c, 0);
    ReducedSame(suite, a + c, a);
  }

  lemma BoundHalf(suite: Suite, b: int, binding: nat)
    requires IsPrime(suite.q) && b % suite.q != 0 && binding % suite.q != 0
    ensures suite.Times(b % suite.q, binding) == suite.Reduced(b * binding) && suite.Reduced(b * binding).Some?
  {
    CongMod(suite.q, b);
    CongRefl(suite.q, binding);
    TimesReduced(suite, b % suite.q, binding, b, binding);
    ReducedProductNonzero(suite, b, binding);
  }

  lemma AddHalves(suite: Suite, a: int, c: int)
    requires suite.q > 0 && suite.Reduced(c).Some?
    ensures suite.Reduced(a + c) ==
      if suite.Reduced(a).None? then suite.Reduced(c) else suite.Plus(suite.Reduced(a).value, suite.Reduced(c).value)
  {
    CongMod(suite.q, a);
    ReducedCong(suite, c);
    PlusReduced(suite, a % suite.q, suite.Reduced(c).value, a, c);
    if suite.Reduced(a).None? {
      ZeroCong(suite.q, a);
      CongRefl(suite.q, c);
      CongAdd(suite.q, a, 0, c, c);
      ReducedSame(suite, a + c, c);
    }
  }

  lemma ReducedProductNonzero(suite: Suite, a: int, b: int)
    requires IsPrime(suite.q) && a % suite.q != 0 && b % suite.q != 0
    ensures suite.Reduced(a * b).Some?
  {
    NonzeroProduct(suite.q, a, b);
  }

  /** The x-only representative is the signed point and has even y. */
  lemma EvenIs(suite: Suite, x: nat)
    requires suite.Sound() && IsPoint(suite, x)
    ensures Cong(suite.q, suite.Even(x), Sign(suite.odd(x)) * x)
    ensures IsPoint(suite, suite.Even(x)) && !suite.odd(suite.Even(x))
  {
    assert suite.Flips(x);
    ModUnique(suite.q, x, 0, x);
    ModUnique(suite.q, suite.q - x, 0, suite.q - x);
    SignedCong(suite, suite.odd(x), x);
  }

  // ----- the aggregate -----

  function NonceShare(nonces: map<nat, Pair>, binding: nat): nat -> int {
    (i: nat) => Firsts(nonces)(i) + Seconds(nonces)(i) * binding
  }

  lemma NonceSumSplits(nonces: map<nat, Pair>, binding: nat)
    ensures SumOver(nonces.Keys, NonceShare(nonces, binding)) == NonceSum(nonces, binding)
  {
    SumLinear(nonces.Keys, NonceShare(nonces, binding), 1, Firsts(nonces), binding, Seconds(nonces));
  }

  /** The shares a signing set produces over a session, for the secret
      polynomial `f`. */
  ghost predicate Signed(suite: Suite, s: Session, f: seq<int>, nonces: map<nat, Pair>, shares: map<nat, nat>, pk: nat)
    requires suite.q > 2
  {
    shares.Keys == nonces.Keys && forall i :: i in nonces ==> SignedBy(suite, s, f, nonces, shares, pk, i)
  }

  ghost predicate SignedBy(suite: Suite, s: Session, f: seq<int>, nonces: map<nat, Pair>, shares: map<nat, nat>,
                           pk: nat, i: nat)
    requires suite.q > 2 && shares.Keys == nonces.Keys && i in nonces
  {
    && Eval(f, i + 1) % suite.q != 0
    && SignWith(suite, s, Lambda(suite.q, nonces.Keys, i), Eval(f, i + 1) % suite.q, nonces[i], pk) == Some(shares[i])
  }

  /** What a share adds to the sum, as an integer. */
  function Contribution(suite: Suite, s: Session, f: seq<int>, nonces: map<nat, Pair>, pk: nat): nat -> int
    requires suite.q > 2
  {
    (i: nat) =>
      Sign(suite.odd(s.groupNonce)) * NonceShare(nonces, s.binding)(i) +
      (Sign(suite.odd(pk)) * s.challenge) * Terms(suite.q, nonces.Keys, ValuesOf(f))(i)
  }

  lemma SignedShare(suite: Suite, s: Session, f: seq<int>, nonces: map<nat, Pair>, shares: map<nat, nat>, pk: nat,
                    i: nat)
    requires suite.Sound() && PublicNonces(suite, nonces) && Signed(suite, s, f, nonces, shares, pk) && i in nonces
    ensures shares[i] < suite.q
    ensures Cong(suite.q, shares[i],
                 ShareValue(suite, s, Lambda(suite.q, nonces.Keys, i), Eval(f, i + 1) % suite.q, nonces[i], pk))
  {
    var lambda := Lambda(suite.q, nonces.Keys, i);
    assert SignedBy(suite, s, f, nonces, shares, pk, i);
    NodesArePoints(suite, nonces);
    LambdaIsWeight(suite.q, nonces.Keys, i);
    ShareFrom(suite, s, lambda, Eval(f, i + 1) % suite.q, nonces[i], pk, shares[i]);
  }

  lemma ShareFrom(suite: Suite, s: Session, lambda: nat, sks: nat, nonce: Pair, pk: nat, share: nat)
    requires suite.Sound() && 0 < lambda < suite.q && 0 < sks < suite.q
    requires IsPoint(suite, nonce.0) && IsPoint(suite, nonce.1)
    requires SignWith(suite, s, lambda, sks, nonce, pk) == Some(share)
    ensures share < suite.q && Cong(suite.q, share, ShareValue(suite, s, lambda, sks, nonce, pk))
  {
    ModUnique(suite.q, lambda, 0, lambda);
    ModUnique(suite.q, sks, 0, sks);
    SignerComputes(suite, s, lambda, sks, nonce, pk);
    ReducedCong(suite, ShareValue(suite, s, lambda, sks, nonce, pk));
  }

  lemma Unreduce(q: nat, share: int, value: int, total: int, n: int, sign: int, key: int, lambda: int, e: int)
    requires q > 0 && Cong(q, share, value)
    requires value == n + sign * (key % q) * lambda * e && total == n + (sign * e) * (lambda * key)
    ensures Cong(q, share, total)
  {
    var c := sign * e * lambda;
    CongMod(q, key);
    CongScale(q, c, key % q, key);
    CongRefl(q, n);
    CongAdd(q, n, n, c * (key % q), c * key);
    assert sign * (key % q) * lambda * e == c * (key % q);
    assert (sign * e) * (lambda * key) == c * key;
    CongTrans(q, share, value, total);
  }

  lemma ShareContributes(suite: Suite, s: Session, f: seq<int>, nonces: map<nat, Pair>, shares: map<nat, nat>, pk: nat,
                         i: nat)
    requires suite.Sound() && PublicNonces(suite, nonces) && Signed(suite, s, f, nonces, shares, pk) && i in nonces
    ensures shares[i] < suite.q && Cong(suite.q, shares[i], Contribution(suite, s, f, nonces, pk)(i))
  {
    var key, lambda := Eval(f, i + 1), Lambda(suite.q, nonces.Keys, i);
    var n := Sign(suite.odd(s.groupNonce)) * (nonces[i].0 + nonces[i].1 * s.binding);
    SignedShare(suite, s, f, nonces, shares, pk, i);
    ContributionAt(suite, s, f, nonces, pk, i);
    Unreduce(suite.q, shares[i], ShareValue(suite, s, lambda, key % suite.q, nonces[i], pk),
             Contribution(suite, s, f, nonces, pk)(i), n, Sign(suite.odd(pk)), key, lambda, s.challenge);
  }

  lemma ContributionAt(suite: Suite, s: Session, f: seq<int>, nonces: map<nat, Pair>, pk: nat, i: nat)
    requires suite.q > 2 && i in nonces
    ensures Contribution(suite, s, f, nonces, pk)(i) ==
      Sign(suite.odd(s.groupNonce)) * (nonces[i].0 + nonces[i].1 * s.binding) +
      (Sign(suite.odd(pk)) * s.challenge) * (Lambda(suite.q, nonces.Keys, i) * Eval(f, i + 1))
  {
    var x, y := NonceShare(nonces, s.binding)(i), Terms(suite.q, nonces.Keys, ValuesOf(f))(i);
    assert Firsts(nonces)(i) == nonces[i].0 && Seconds(nonces)(i) == nonces[i].1;
    ValuesAt(f, i);
    var n, c := Sign(suite.odd(s.groupNonce)), Sign(suite.odd(pk)) * s.challenge;
    assert Contribution(suite, s, f, nonces, pk)(i) == n * x + c * y;
  }

  /** The signed nonce sum plus the challenge times the signed key. */
  function ResponseValue(suite: Suite, s: Session, nonces: map<nat, Pair>, pk: nat): int {
    Sign(suite.odd(s.groupNonce)) * NonceSum(nonces, s.binding) + (Sign(suite.odd(pk)) * s.challenge) * pk
  }

  lemma SharesAddUp(suite: Suite, s: Session, f: seq<int>, nonces: map<nat, Pair>, shares: map<nat, nat>, pk: nat,
                    r: nat)
    requires suite.Sound() && PublicNonces(suite, nonces) && Signed(suite, s, f, nonces, shares, pk)
    requires AddUpAll(suite, shares) == Some(r)
    ensures r < suite.q && Cong(suite.q, r, SumOver(nonces.Keys, Contribution(suite, s, f, nonces, pk)))
  {
    var total := Contribution(suite, s, f, nonces, pk);
    forall i | i in nonces.Keys ensures shares[i] < suite.q && Cong(suite.q, ValueAt(shares)(i), total(i)) {
      ShareContributes(suite, s, f, nonces, shares, pk, i);
    }
    AllAddUp(suite, shares);
    SumCong(suite.q, nonces.Keys, ValueAt(shares), total);
    CongTrans(suite.q, r, SumOver(nonces.Keys, ValueAt(shares)), SumOver(nonces.Keys, total));
  }

  lemma ContributionsSum(suite: Suite, s: Session, f: seq<int>, nonces: map<nat, Pair>, pk: nat, n: int, c: int)
    requires suite.q > 2 && n == Sign(suite.odd(s.groupNonce)) && c == Sign(suite.odd(pk)) * s.challenge
    ensures SumOver(nonces.Keys, Contribution(suite, s, f, nonces, pk)) ==
      n * NonceSum(nonces, s.binding) + c * Combine(suite.q, nonces.Keys, ValuesOf(f))
  {
    SumLinear(nonces.Keys, Contribution(suite, s, f, nonces, pk), n, NonceShare(nonces, s.binding), c,
              Terms(suite.q, nonces.Keys, ValuesOf(f)));
    NonceSumSplits(nonces, s.binding);
  }

  lemma ResponseIs(suite: Suite, s: Session, f: seq<int>, nonces: map<nat, Pair>, shares: map<nat, nat>, pk: nat,
                   r: nat)
    requires suite.Sound() && PublicNonces(suite, nonces) && Signed(suite, s, f, nonces, shares, pk)
    requires nonces != map[] && |f| <= |nonces| && Cong(suite.q, Eval(f, 0), pk)
    requires AddUpAll(suite, shares) == Some(r)
    ensures r < suite.q && Cong(suite.q, r, ResponseValue(suite, s, nonces, pk))
  {
    var q, nodes := suite.q, nonces.Keys;
    var n, c := Sign(suite.odd(s.groupNonce)), Sign(suite.odd(pk)) * s.challenge;
    SharesAddUp(suite, s, f, nonces, shares, pk, r);
    ContributionsSum(suite, s, f, nonces, pk, n, c);
    KeyInterpolates(suite, f, nonces, pk);
    KeyCombined(q, r, SumOver(nodes, Contribution(suite, s, f, nonces, pk)), n * NonceSum(nonces, s.binding), c,
                Combine(q, nodes, ValuesOf(f)), pk, ResponseValue(suite, s, nonces, pk));
  }

  lemma KeyInterpolates(suite: Suite, f: seq<int>, nonces: map<nat, Pair>, pk: nat)
    requires suite.Sound() && PublicNonces(suite, nonces)
    requires nonces != map[] && |f| <= |nonces| && Cong(suite.q, Eval(f, 0), pk)
    ensures Points(suite.q, nonces.Keys)
    ensures Cong(suite.q, Combine(suite.q, nonces.Keys, ValuesOf(f)), pk)
  {
    var q, nodes := suite.q, nonces.Keys;
    NodesArePoints(suite, nonces);
    assert |nonces| == |nodes|;
    Interpolates(q, nodes, f);
    CongTrans(q, Combine(q, nodes, ValuesOf(f)), Eval(f, 0), pk);
  }

  lemma KeyCombined(q: nat, r: nat, sum: int, nonce: int, c: int, combined: int, pk: nat, total: int)
    requires q > 0 && Cong(q, r, sum) && sum == nonce + c * combined && Cong(q, combined, pk) && total == nonce + c * pk
    ensures Cong(q, r, total)
  {
    CongScale(q, c, combined, pk);
    CongRefl(q, nonce);
    CongAdd(q, nonce, nonce, c * combined, c * pk);
    CongTrans(q, r, sum, total);
  }

  /** The verifier's point, from the response. */
  lemma PointLeft(q: nat, r: nat, total: int, nonce: int, sign: int, e: nat, pk: nat, key: nat)
    requires q > 0 && Cong(q, r, total) && total == nonce + (sign * e) * pk && Cong(q, key, sign * pk)
    ensures (r - e * key) % q == nonce % q
  {
    CongScale(q, e, key, sign * pk);
    assert e * (sign * pk) == (sign * e) * pk;
    CongAdd(q, r, total, e * key, e * (sign * pk));
    CongSame(q, r - e * key, nonce);
  }

  /** Every node of the signing set signs with its share of the polynomial `f`. */
  ghost predicate AllSign(suite: Suite, msg: Message, f: seq<int>, nonces: map<nat, Pair>, shares: map<nat, nat>,
                          pk: nat)
    requires suite.q > 2
  {
    shares.Keys == nonces.Keys && forall i :: i in nonces ==> SignsAs(suite, msg, f, nonces, shares, pk, i)
  }

  ghost predicate SignsAs(suite: Suite, msg: Message, f: seq<int>, nonces: map<nat, Pair>, shares: map<nat, nat>,
                          pk: nat, i: nat)
    requires suite.q > 2 && shares.Keys == nonces.Keys && i in nonces
  {
    && Eval(f, i + 1) % suite.q != 0
    && SignShare(suite, msg, Eval(f, i + 1) % suite.q, nonces[i], nonces, i, pk) == Some(shares[i])
  }

  /** FROST correctness: the aggregate of what a signing set of at least the
      threshold produces exists exactly if no sum of the shares on the way is
      zero, and verifies under the mint's key, for every combination of
      parities, exactly if the bound nonces do not cancel out. Where they do,
      the fallback generator the challenge was built on is not the point the
      shares add up to. */
  lemma AggregateVerifies(suite: Suite, msg: Message, f: seq<int>, nonces: map<nat, Pair>, shares: map<nat, nat>,
                          pk: nat)
    requires suite.Sound() && PublicNonces(suite, nonces)
    requires nonces != map[] && |f| <= |nonces|
    requires IsPoint(suite, pk) && Cong(suite.q, Eval(f, 0), pk)
    requires AllSign(suite, msg, f, nonces, shares, pk)
    ensures var walk, signature := Ascending(shares.Keys), AggregateSignatureShares(suite, msg, nonces, shares, pk);
      && SessionValues(suite, msg, nonces, pk).Some?
      && (signature.Some? <==> SumsNonzero(suite.q, walk, ValueAt(shares), |walk|))
      && (signature.Some? ==> (Verify(suite, msg, signature.value, pk)
           <==> NonceSum(nonces, SessionValues(suite, msg, nonces, pk).value.binding) % suite.q != 0))
  {
    AggregateExists(suite, msg, f, nonces, shares, pk);
    var signature := AggregateSignatureShares(suite, msg, nonces, shares, pk);
    if signature.Some? {
      AggregateFits(suite, msg, f, nonces, shares, pk, signature.value);
    }
  }

  lemma AggregateExists(suite: Suite, msg: Message, f: seq<int>, nonces: map<nat, Pair>, shares: map<nat, nat>, pk: nat)
    requires suite.Sound() && PublicNonces(suite, nonces) && nonces != map[]
    requires AllSign(suite, msg, f, nonces, shares, pk)
    ensures SessionValues(suite, msg, nonces, pk).Some?
    ensures var walk := Ascending(shares.Keys);
      AggregateSignatureShares(suite, msg, nonces, shares, pk).Some? <==>
        SumsNonzero(suite.q, walk, ValueAt(shares), |walk|)
  {
    var node :| node in nonces;
    assert SignsAs(suite, msg, f, nonces, shares, pk, node);
    var s := SessionValues(suite, msg, nonces, pk).value;
    AllSigned(suite, msg, f, nonces, shares, pk, s);
    SharesAddUpIff(suite, s, f, nonces, shares, pk);
  }

  lemma SharesAddUpIff(suite: Suite, s: Session, f: seq<int>, nonces: map<nat, Pair>, shares: map<nat, nat>, pk: nat)
    requires suite.Sound() && PublicNonces(suite, nonces) && Signed(suite, s, f, nonces, shares, pk)
    requires nonces != map[]
    ensures var walk := Ascending(shares.Keys);
      AddUpAll(suite, shares).Some? <==> SumsNonzero(suite.q, walk, ValueAt(shares), |walk|)
  {
    forall i | i in shares ensures shares[i] < suite.q && Cong(suite.q, shares[i], ValueAt(shares)(i)) {
      SignedShare(suite, s, f, nonces, shares, pk, i);
      CongRefl(suite.q, shares[i]);
    }
    assert shares.Keys == nonces.Keys != {};
    AllAddUpIff(suite, shares, ValueAt(shares));
  }

  /** An aggregate that exists. */
  lemma AggregateFits(suite: Suite, msg: Message, f: seq<int>, nonces: map<nat, Pair>, shares: map<nat, nat>,
                      pk: nat, signature: Pair)
    requires suite.Sound() && PublicNonces(suite, nonces)
    requires nonces != map[] && |f| <= |nonces|
    requires IsPoint(suite, pk) && Cong(suite.q, Eval(f, 0), pk)
    requires AllSign(suite, msg, f, nonces, shares, pk)
    requires AggregateSignatureShares(suite, msg, nonces, shares, pk) == Some(signature)
    ensures Verify(suite, msg, signature, pk)
      <==> NonceSum(nonces, SessionValues(suite, msg, nonces, pk).value.binding) % suite.q != 0
  {
    var s := SessionValues(suite, msg, nonces, pk).value;
    SessionIs(suite, msg, nonces, pk, s);
    AllSigned(suite, msg, f, nonces, shares, pk, s);
    AggregateIs(suite, msg, nonces, shares, pk, s, signature);
    AggregatePoint(suite, f, nonces, shares, pk, s, signature.1);
    VerifyIs(suite, msg, signature, pk, s);
    GroupNonceIs(suite, nonces, s.binding);
    NoncePoint(suite, s.groupNonce, NonceSum(nonces, s.binding));
  }

  /** A nonce part leaves room for one response: no other verifies with it. */
  lemma OneResponse(suite: Suite, msg: Message, r: nat, one: nat, two: nat, pk: nat)
    requires suite.q > 0 && Verify(suite, msg, (r, one), pk) && Verify(suite, msg, (r, two), pk)
    ensures one == two
  {
    var q := suite.q;
    var a := (suite.challenge(r, suite.Even(pk), msg) % q) * suite.Even(pk);
    CongMod(q, one - a);
    CongMod(q, two - a);
    CongTrans(q, one - a, r, two - a);
    CongRefl(q, a);
    CongAdd(q, one - a, two - a, a, a);
    CongSame(q, one, two);
    ModUnique(q, one, 0, one);
    ModUnique(q, two, 0, two);
  }

  /** The point the verifier computes, and the one the nonces add up to. */
  function VerifiedPoint(suite: Suite, s: Session, pk: nat, r: nat): int
    requires suite.q > 0
  {
    (r - s.challenge * suite.Even(pk)) % suite.q
  }

  function SignedSum(suite: Suite, s: Session, nonces: map<nat, Pair>): int
    requires suite.q > 0
  {
    (Sign(suite.odd(s.groupNonce)) * NonceSum(nonces, s.binding)) % suite.q
  }

  lemma AggregatePoint(suite: Suite, f: seq<int>, nonces: map<nat, Pair>, shares: map<nat, nat>, pk: nat, s: Session,
                       r: nat)
    requires suite.Sound() && PublicNonces(suite, nonces)
    requires nonces != map[] && |f| <= |nonces|
    requires IsPoint(suite, pk) && Cong(suite.q, Eval(f, 0), pk)
    requires Signed(suite, s, f, nonces, shares, pk) && AddUpAll(suite, shares) == Some(r)
    ensures r < suite.q && VerifiedPoint(suite, s, pk, r) == SignedSum(suite, s, nonces)
  {
    ResponseIs(suite, s, f, nonces, shares, pk, r);
    PointRecovered(suite, s, nonces, pk, r);
  }

  lemma AllSigned(suite: Suite, msg: Message, f: seq<int>, nonces: map<nat, Pair>, shares: map<nat, nat>, pk: nat,
                  s: Session)
    requires suite.q > 2 && AllSign(suite, msg, f, nonces, shares, pk)
    requires SessionValues(suite, msg, nonces, pk) == Some(s)
    ensures Signed(suite, s, f, nonces, shares, pk)
  {
    forall i | i in nonces ensures SignedBy(suite, s, f, nonces, shares, pk, i) {
      OneSigned(suite, msg, f, nonces, shares, pk, s, i);
    }
  }

  lemma OneSigned(suite: Suite, msg: Message, f: seq<int>, nonces: map<nat, Pair>, shares: map<nat, nat>, pk: nat,
                  s: Session, i: nat)
    requires suite.q > 2 && AllSign(suite, msg, f, nonces, shares, pk) && i in nonces
    requires SessionValues(suite, msg, nonces, pk) == Some(s)
    ensures SignedBy(suite, s, f, nonces, shares, pk, i)
  {
    assert SignsAs(suite, msg, f, nonces, shares, pk, i);
  }

  lemma AggregateIs(suite: Suite, msg: Message, nonces: map<nat, Pair>, shares: map<nat, nat>, pk: nat, s: Session,
                    signature: Pair)
    requires suite.q > 2 && SessionValues(suite, msg, nonces, pk) == Some(s)
    requires AggregateSignatureShares(suite, msg, nonces, shares, pk) == Some(signature)
    ensures signature.0 == suite.Even(s.groupNonce)
    ensures AddUpAll(suite, shares) == Some(signature.1)
  {
  }

  lemma SessionIs(suite: Suite, msg: Message, nonces: map<nat, Pair>, pk: nat, s: Session)
    requires suite.q > 2 && SessionValues(suite, msg, nonces, pk) == Some(s)
    ensures GroupNonce(suite, Halves(suite, nonces), s.binding) == Some(s.groupNonce)
    ensures s.challenge == suite.challenge(suite.Even(s.groupNonce), suite.Even(pk), msg) % suite.q
  {
  }

  /** The binding coefficient is the hash of the sorted signing set, both halves
      of the summed nonces, the x-only key and the message. */
  lemma BindingIs(suite: Suite, msg: Message, nonces: map<nat, Pair>, pk: nat)
    requires suite.q > 2 && SessionValues(suite, msg, nonces, pk).Some?
    ensures SessionValues(suite, msg, nonces, pk).value.binding ==
      suite.noncecoef(Ascending(nonces.Keys), suite.Reduced(SumOver(nonces.Keys, Firsts(nonces))),
                      suite.Reduced(SumOver(nonces.Keys, Seconds(nonces))), suite.Even(pk), msg) % suite.q
  {
  }

  lemma VerifyIs(suite: Suite, msg: Message, signature: Pair, pk: nat, s: Session)
    requires suite.q > 2 && signature.0 == suite.Even(s.groupNonce) && signature.1 < suite.q
    requires s.challenge == suite.challenge(suite.Even(s.groupNonce), suite.Even(pk), msg) % suite.q
    ensures Verify(suite, msg, signature, pk)
      <==> NamesPoint(suite, signature.0, VerifiedPoint(suite, s, pk, signature.1))
  {
  }

  predicate NamesPoint(suite: Suite, xonly: nat, point: nat) {
    point != 0 && !suite.odd(point) && point == xonly
  }

  lemma PointRecovered(suite: Suite, s: Session, nonces: map<nat, Pair>, pk: nat, r: nat)
    requires suite.Sound() && IsPoint(suite, pk) && Cong(suite.q, r, ResponseValue(suite, s, nonces, pk))
    ensures VerifiedPoint(suite, s, pk, r) == SignedSum(suite, s, nonces)
  {
    EvenIs(suite, pk);
    PointLeft(suite.q, r, ResponseValue(suite, s, nonces, pk),
              Sign(suite.odd(s.groupNonce)) * NonceSum(nonces, s.binding), Sign(suite.odd(pk)), s.challenge, pk,
              suite.Even(pk));
  }

  /** The signed nonce sum is the x-only group nonce, or zero in the fallback. */
  lemma NoncePoint(suite: Suite, groupNonce: nat, sum: int)
    requires suite.Sound() && groupNonce == OrGenerator(suite.Reduced(sum))
    ensures sum % suite.q == 0 ==> (Sign(suite.odd(groupNonce)) * sum) % suite.q == 0
    ensures sum % suite.q != 0 ==>
      && (Sign(suite.odd(groupNonce)) * sum) % suite.q == suite.Even(groupNonce)
      && suite.Even(groupNonce) != 0 && !suite.odd(suite.Even(groupNonce))
  {
    var q, n := suite.q, Sign(suite.odd(groupNonce));
    if sum % q == 0 {
      ZeroCong(q, sum);
      CongScale(q, n, sum, 0);
      CongSame(q, n * sum, 0);
      ModUnique(q, 0, 0, 0);
    } else {
      CongMod(q, sum);
      CongScale(q, n, sum, groupNonce);
      EvenIs(suite, groupNonce);
      CongSame(q, suite.Even(groupNonce), n * groupNonce);
      CongTrans(q, n * sum, n * groupNonce, suite.Even(groupNonce));
      CongSame(q, n * sum, suite.Even(groupNonce));
      ModUnique(q, suite.Even(groupNonce), 0, suite.Even(groupNonce));
    }
  }

  // ----- recovering the key -----

  lemma WeightedSums(suite: Suite, shares: map<nat, nat>)
    requires suite.q > 2
    ensures Cong(suite.q, SumOver(shares.Keys, ValueAt(Weighted(suite, shares))),
                 Combine(suite.q, shares.Keys, ValueAt(shares)))
  {
    var q, nodes := suite.q, shares.Keys;
    forall i | i in nodes ensures Cong(q, ValueAt(Weighted(suite, shares))(i), Terms(q, nodes, ValueAt(shares))(i)) {
      CongMod(q, shares[i] * Lambda(q, nodes, i));
      assert Lambda(q, nodes, i) * shares[i] == shares[i] * Lambda(q, nodes, i);
    }
    SumCong(q, nodes, ValueAt(Weighted(suite, shares)), Terms(q, nodes, ValueAt(shares)));
  }

  /** What adding up the weighted shares comes to. */
  lemma WeightedAddUp(suite: Suite, shares: map<nat, nat>, key: nat)
    requires suite.q > 2 && AddUpAll(suite, Weighted(suite, shares)) == Some(key)
    ensures key < suite.q && Cong(suite.q, key, SumOver(shares.Keys, ValueAt(Weighted(suite, shares))))
  {
    WeightedBelow(suite, shares);
    AddsUpTo(suite, Weighted(suite, shares), shares.Keys, key);
  }

  lemma WeightedBelow(suite: Suite, shares: map<nat, nat>)
    requires suite.q > 2
    ensures Weighted(suite, shares).Keys == shares.Keys
    ensures forall i :: i in Weighted(suite, shares) ==> Weighted(suite, shares)[i] < suite.q
  {
    forall i | i in Weighted(suite, shares) ensures Weighted(suite, shares)[i] < suite.q {
      WeightedAt(suite, shares, i);
    }
  }

  lemma AddsUpTo(suite: Suite, weighted: map<nat, nat>, nodes: set<nat>, key: nat)
    requires suite.q > 2 && weighted.Keys == nodes && AddUpAll(suite, weighted) == Some(key)
    requires forall i :: i in weighted ==> weighted[i] < suite.q
    ensures key < suite.q && Cong(suite.q, key, SumOver(nodes, ValueAt(weighted)))
  {
    AllAddUp(suite, weighted);
  }

  lemma InterpolatedIs(suite: Suite, shares: map<nat, nat>, key: nat)
    requires suite.q > 2 && InterpolateSecretKey(suite, shares) == Some(key)
    ensures SumsTo(suite, key, Combine(suite.q, shares.Keys, ValueAt(shares)))
  {
    WeightedSums(suite, shares);
    WeightedAddUp(suite, shares, key);
    CongTrans(suite.q, key, SumOver(shares.Keys, ValueAt(Weighted(suite, shares))),
              Combine(suite.q, shares.Keys, ValueAt(shares)));
  }

  lemma ValuesAt(f: seq<int>, i: nat)
    ensures ValuesOf(f)(i) == Eval(f, i + 1)
  {
  }

  /** What the shares of a key weigh in, node by node. */
  function WeighedIn(q: nat, shares: map<nat, nat>): nat -> int
    requires q > 2
  {
    (i: nat) => Lambda(q, shares.Keys, i) * ValueAt(shares)(i)
  }

  lemma WeightedAt(suite: Suite, shares: map<nat, nat>, i: nat)
    requires suite.q > 2 && i in shares
    ensures Weighted(suite, shares)[i] < suite.q
    ensures Cong(suite.q, Weighted(suite, shares)[i], WeighedIn(suite.q, shares)(i))
  {
    var lambda := Lambda(suite.q, shares.Keys, i);
    CongMod(suite.q, shares[i] * lambda);
    assert ValueAt(shares)(i) == shares[i];
    assert WeighedIn(suite.q, shares)(i) == lambda * shares[i] == shares[i] * lambda;
  }

  /** No weighted sum on the way to the key is zero. */
  ghost predicate WeighsNonzero(suite: Suite, shares: map<nat, nat>)
    requires suite.q > 2
  {
    SumsNonzero(suite.q, Ascending(shares.Keys), WeighedIn(suite.q, shares), |Ascending(shares.Keys)|)
  }

  /** A key is recovered exactly if no weighted sum on the way is zero. */
  lemma KeyExists(suite: Suite, shares: map<nat, nat>)
    requires suite.q > 2 && shares != map[]
    ensures InterpolateSecretKey(suite, shares).Some? <==> WeighsNonzero(suite, shares)
  {
    var weighted, value := Weighted(suite, shares), WeighedIn(suite.q, shares);
    forall i | i in weighted ensures weighted[i] < suite.q && Cong(suite.q, weighted[i], value(i)) {
      WeightedAt(suite, shares, i);
    }
    assert weighted.Keys == shares.Keys;
    AllAddUpIff(suite, weighted, value);
  }

  /** Each share is its node's value of the polynomial. */
  ghost predicate OnPolynomial(q: nat, f: seq<int>, shares: map<nat, nat>)
    requires q > 0
  {
    forall i :: i in shares ==> ShareOn(q, f, shares, i)
  }

  predicate ShareOn(q: nat, f: seq<int>, shares: map<nat, nat>, i: nat)
    requires q > 0 && i in shares
  {
    Cong(q, shares[i], Eval(f, i + 1))
  }

  lemma ShareValues(q: nat, f: seq<int>, shares: map<nat, nat>, i: nat)
    requires q > 0 && OnPolynomial(q, f, shares) && i in shares
    ensures Cong(q, ValueAt(shares)(i), ValuesOf(f)(i))
  {
    assert ShareOn(q, f, shares, i);
    ValuesAt(f, i);
    assert ValueAt(shares)(i) == shares[i];
  }

  /** Any set of at least a threshold of shares recovers the same secret, unless
      a weighted sum on the way is zero. */
  lemma KeyRecovered(suite: Suite, f: seq<int>, shares: map<nat, nat>)
    requires suite.q > 2 && Points(suite.q, shares.Keys) && shares != map[] && |f| <= |shares|
    requires OnPolynomial(suite.q, f, shares)
    ensures var key := InterpolateSecretKey(suite, shares);
      && (key.Some? <==> WeighsNonzero(suite, shares))
      && (key.Some? ==> key.value == Eval(f, 0) % suite.q)
  {
    KeyExists(suite, shares);
    if InterpolateSecretKey(suite, shares).Some? {
      KeyFits(suite, f, shares, InterpolateSecretKey(suite, shares).value);
    }
  }

  lemma KeyFits(suite: Suite, f: seq<int>, shares: map<nat, nat>, key: nat)
    requires suite.q > 2 && Points(suite.q, shares.Keys) && shares != map[] && |f| <= |shares|
    requires OnPolynomial(suite.q, f, shares)
    requires InterpolateSecretKey(suite, shares) == Some(key)
    ensures key == Eval(f, 0) % suite.q
  {
    var q, nodes := suite.q, shares.Keys;
    InterpolatedIs(suite, shares, key);
    forall i | i in nodes ensures Cong(q, ValueAt(shares)(i), ValuesOf(f)(i)) {
      ShareValues(q, f, shares, i);
    }
    CombineCong(q, nodes, ValueAt(shares), ValuesOf(f));
    assert |shares| == |nodes|;
    Interpolates(q, nodes, f);
    CongTrans(q, key, Combine(q, nodes, ValueAt(shares)), Combine(q, nodes, ValuesOf(f)));
    CongTrans(q, key, Combine(q, nodes, ValuesOf(f)), Eval(f, 0));
    CongSame(q, key, Eval(f, 0));
    ModUnique(q, key, 0, key);
  }

  /** A key moved by a tweak. */
  function Moved(q: nat, key: nat, tweak: nat): nat
    requires q > 0
  {
    (key + tweak) % q
  }

  /** Tweaking every share tweaks the recovered key by exactly as much; each key
      is recovered unless a weighted sum on the way is zero. */
  lemma TweakPasses(suite: Suite, shares: map<nat, nat>, tweaked: map<nat, nat>, tweak: nat)
    requires suite.q > 2 && Points(suite.q, shares.Keys) && shares != map[] && tweaked.Keys == shares.Keys
    requires forall i :: i in shares ==> Cong(suite.q, tweaked[i], shares[i] + tweak)
    ensures var key, moved := InterpolateSecretKey(suite, shares), InterpolateSecretKey(suite, tweaked);
      && (key.Some? <==> WeighsNonzero(suite, shares))
      && (moved.Some? <==> WeighsNonzero(suite, tweaked))
      && (key.Some? && moved.Some? ==> moved.value == Moved(suite.q, key.value, tweak))
  {
    KeyExists(suite, shares);
    assert tweaked.Keys != {};
    KeyExists(suite, tweaked);
    var key, moved := InterpolateSecretKey(suite, shares), InterpolateSecretKey(suite, tweaked);
    if key.Some? && moved.Some? {
      TweakFits(suite, shares, tweaked, tweak, key.value, moved.value);
    }
  }

  lemma TweakFits(suite: Suite, shares: map<nat, nat>, tweaked: map<nat, nat>, tweak: nat, key: nat, moved: nat)
    requires suite.q > 2 && Points(suite.q, shares.Keys) && shares != map[] && tweaked.Keys == shares.Keys
    requires forall i :: i in shares ==> Cong(suite.q, tweaked[i], shares[i] + tweak)
    requires InterpolateSecretKey(suite, shares) == Some(key) && InterpolateSecretKey(suite, tweaked) == Some(moved)
    ensures moved == Moved(suite.q, key, tweak)
  {
    var q, nodes := suite.q, shares.Keys;
    InterpolatedIs(suite, shares, key);
    InterpolatedIs(suite, tweaked, moved);
    TweakedCombines(q, shares, tweaked, tweak);
    WeightsSumToOne(q, nodes);
    TweakedTotal(q, moved, key, Combine(q, nodes, ValueAt(tweaked)), Combine(q, nodes, Lifted(shares, tweak)),
                 Combine(q, nodes, ValueAt(shares)), tweak, Combine(q, nodes, One));
  }

  function Lifted(shares: map<nat, nat>, tweak: nat): nat -> int {
    (i: nat) => ValueAt(shares)(i) + tweak
  }

  lemma TweakedCombines(q: nat, shares: map<nat, nat>, tweaked: map<nat, nat>, tweak: nat)
    requires q > 2 && tweaked.Keys == shares.Keys
    requires forall i :: i in shares ==> Cong(q, tweaked[i], shares[i] + tweak)
    ensures Cong(q, Combine(q, shares.Keys, ValueAt(tweaked)), Combine(q, shares.Keys, Lifted(shares, tweak)))
    ensures Combine(q, shares.Keys, Lifted(shares, tweak)) ==
      1 * Combine(q, shares.Keys, ValueAt(shares)) + tweak * Combine(q, shares.Keys, One)
  {
    var nodes := shares.Keys;
    forall i | i in nodes ensures Cong(q, ValueAt(tweaked)(i), Lifted(shares, tweak)(i)) {
      assert ValueAt(tweaked)(i) == tweaked[i] && ValueAt(shares)(i) == shares[i];
    }
    CombineCong(q, nodes, ValueAt(tweaked), Lifted(shares, tweak));
    forall i | i in nodes ensures Lifted(shares, tweak)(i) == 1 * ValueAt(shares)(i) + tweak * One(i) {
      assert One(i) == 1 && tweak * 1 == tweak;
    }
    CombineLinear(q, nodes, Lifted(shares, tweak), 1, ValueAt(shares), tweak, One);
  }

  lemma CombineCong(q: nat, nodes: set<nat>, f: nat -> int, g: nat -> int)
    requires q > 2 && forall i :: i in nodes ==> Cong(q, f(i), g(i))
    ensures Cong(q, Combine(q, nodes, f), Combine(q, nodes, g))
  {
    forall i | i in nodes ensures Cong(q, Terms(q, nodes, f)(i), Terms(q, nodes, g)(i)) {
      CongScale(q, Lambda(q, nodes, i), f(i), g(i));
    }
    SumCong(q, nodes, Terms(q, nodes, f), Terms(q, nodes, g));
  }

  lemma TweakedTotal(q: nat, moved: nat, key: nat, combined: int, total: int, plain: int, tweak: nat, one: int)
    requires q > 0 && moved < q && Cong(q, moved, combined) && Cong(q, combined, total)
    requires total == 1 * plain + tweak * one && Cong(q, key, plain) && Cong(q, one, 1)
    ensures moved == (key + tweak) % q
  {
    CongSame(q, key, plain);
    CongScale(q, tweak, one, 1);
    CongAdd(q, plain, key, tweak * one, tweak);
    CongTrans(q, moved, combined, total);
    CongTrans(q, moved, total, key + tweak);
    CongSame(q, moved, key + tweak);
    ModUnique(q, moved, 0, moved);
  }

  /** A tweak of the dealer's polynomial is a tweak of each share and of the key. */
  lemma TweakedPolynomial(f: seq<int>, tweak: int, x: int)
    requires f != []
    ensures Eval(f[0 := f[0] + tweak], x) == Eval(f, x) + tweak
  {
    assert f[0 := f[0] + tweak][1..] == f[1..];
  }
}

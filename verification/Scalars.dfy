/** The byte-level scalar routines: reduction modulo the curve order with a
    borrow loop, inversion by square-and-multiply over the order's bytes, and
    the Lagrange multiplier loop. */
module Scalars {
  import opened Ordered
  import opened Field
  import opened Interpolation
  import opened BigEndian

  // ----- reduction modulo the order -----

  /** Part way through the subtraction: below byte `i` nothing has changed. */
  ghost predicate Subtracted(was: seq<Byte>, now: seq<Byte>, order: seq<Byte>, i: nat, borrow: int) {
    && |was| == |now| == |order| && i <= |was| && now[..i] == was[..i] && 0 <= borrow <= 1
    && Value(now[i..]) == Value(was[i..]) - Value(order[i..]) + borrow * Power(|was| - i)
  }

  lemma SubtractByte(was: seq<Byte>, now: seq<Byte>, order: seq<Byte>, i: nat, borrow: int)
    requires 0 < i && Subtracted(was, now, order, i, borrow)
    ensures var diff := now[i - 1] - order[i - 1] - borrow;
      Subtracted(was, now[i - 1 := diff % 256], order, i - 1, if diff < 0 then 1 else 0)
  {
    var j := i - 1;
    assert now[j] == now[..i][j] == was[j];
    var diff := now[j] - order[j] - borrow;
    var next, out := now[j := diff % 256], if diff < 0 then 1 else 0;
    assert next[..j] == was[..j];
    NextSuffix(was, now, next, order, j, borrow, out);
  }

  lemma NextSuffix(was: seq<Byte>, now: seq<Byte>, next: seq<Byte>, order: seq<Byte>, j: nat, borrow: int, out: int)
    requires j < |was| == |now| == |next| == |order| && next[j + 1..] == now[j + 1..]
    requires next[j] == was[j] - order[j] - borrow + 256 * out
    requires Value(now[j + 1..]) ==
      Value(was[j + 1..]) - Value(order[j + 1..]) + borrow * Power(|was| - (j + 1))
    ensures Value(next[j..]) == Value(was[j..]) - Value(order[j..]) + out * Power(|was| - j)
  {
    ValueSplit(was, j);
    ValueSplit(order, j);
    ValueSplit(next, j);
    Borrowing(was[j], order[j], borrow, out, Power(|was| - (j + 1)));
  }

  lemma Borrowing(a: int, b: int, borrow: int, out: int, p: int)
    ensures (a - b - borrow + 256 * out) * p + borrow * p == a * p - b * p + out * (256 * p)
  {
  }

  /** Reduces in place. One conditional subtraction is enough because twice the
      order exceeds every value the bytes can hold. */
  method ScalarModOrder(bytes: array<Byte>, order: seq<Byte>)
    requires bytes.Length == |order| && 0 < Power(|order|) <= 2 * Value(order)
    modifies bytes
    ensures Value(bytes[..]) == old(Value(bytes[..])) % Value(order)
  {
    ghost var was := bytes[..];
    ValueBound(was);
    if Value(bytes[..]) < Value(order) {
      ModUnique(Value(order), Value(was), 0, Value(was));
      return;
    }
    var borrow: int := 0;
    var i := bytes.Length;
    while i > 0
      invariant 0 <= i <= bytes.Length && Subtracted(was, bytes[..], order, i, borrow)
    {
      SubtractByte(was, bytes[..], order, i, borrow);
      i := i - 1;
      var diff: int := bytes[i] - order[i] - borrow;
      bytes[i] := diff % 256;
      borrow := if diff < 0 then 1 else 0;
    }
    ValueBound(bytes[..]);
    SubtractEnds(was, bytes[..], order, borrow);
  }

  lemma SubtractEnds(was: seq<Byte>, now: seq<Byte>, order: seq<Byte>, borrow: int)
    requires Subtracted(was, now, order, 0, borrow) && Value(order) <= Value(was) < Power(|was|) <= 2 * Value(order)
    requires Value(now) < Power(|now|)
    ensures Value(now) == Value(was) % Value(order)
  {
    assert now[0..] == now && was[0..] == was && order[0..] == order;
    NoBorrowLeft(Value(was), Value(now), Value(order), Power(|was|), borrow);
  }

  lemma NoBorrowLeft(was: nat, now: nat, q: nat, range: nat, borrow: int)
    requires 0 < q <= was < range <= 2 * q && now < range && 0 <= borrow <= 1 && now == was - q + borrow * range
    ensures now == was % q
  {
    ModUnique(q, was, 1, was - q);
  }

  /** An order with its top bit set is at least half of the range. */
  lemma TopBitSuffices(order: seq<Byte>)
    requires order != [] && order[0] >= 0x80
    ensures 0 < Power(|order|) <= 2 * Value(order)
  {
    assert order == [order[0]] + order[1..];
    ValueLeads(order[0], order[1..]);
    ValueBound(order[1..]);
    Scaled(order[0], 128, Power(|order| - 1));
  }

  lemma Scaled(a: nat, b: nat, p: nat)
    requires a >= b
    ensures a * p >= b * p
  {
  }

  predicate ReducedByOne(q: nat, v: nat) {
    v < q || v - q < q
  }

  /** One subtraction reduces every input exactly when the order is at least
      half of the range: a smaller order would leave some value unreduced. */
  lemma OneSubtractionSuffices(q: nat, n: nat)
    requires q > 0
    ensures (forall v: nat :: v < Power(n) ==> ReducedByOne(q, v)) <==> Power(n) <= 2 * q
  {
    if Power(n) > 2 * q {
      assert !ReducedByOne(q, 2 * q);
    }
  }

  // ----- inversion -----

  function Pow2(n: nat): nat {
    if n == 0 then 1 else 2 * Pow2(n - 1)
  }

  /** The exponent accumulated with `j` bits of the current byte to go. */
  function Taken(prefix: seq<Byte>, byte: Byte, j: nat): nat
    requires j <= 8
  {
    PowersOfTwo();
    Value(prefix) * Pow2(8 - j) + byte / Pow2(j)
  }

  lemma PowersOfTwo()
    ensures Pow2(0) == 1 && Pow2(1) == 2 && Pow2(2) == 4 && Pow2(3) == 8 && Pow2(4) == 16
    ensures Pow2(5) == 32 && Pow2(6) == 64 && Pow2(7) == 128 && Pow2(8) == 256
  {
    assert Pow2(4) == 2 * Pow2(3);
    assert Pow2(5) == 2 * Pow2(4);
    assert Pow2(6) == 2 * Pow2(5);
    assert Pow2(7) == 2 * Pow2(6);
    assert Pow2(8) == 2 * Pow2(7);
  }

  lemma HalveTwice(byte: Byte, p: nat)
    requires p > 0
    ensures byte / p == 2 * (byte / (2 * p)) + byte / p % 2
  {
    var k, r := byte / (2 * p), byte % (2 * p);
    assert byte == k * (2 * p) + r == (2 * k) * p + r;
    if r < p {
      ModUnique(p, byte, 2 * k, r);
    } else {
      assert byte == (2 * k + 1) * p + (r - p);
      ModUnique(p, byte, 2 * k + 1, r - p);
    }
  }

  /** Taking one more bit doubles the exponent and adds the bit. */
  lemma TakeBit(prefix: seq<Byte>, byte: Byte, j: nat)
    requires j < 8
    ensures Taken(prefix, byte, j) == 2 * Taken(prefix, byte, j + 1) + if BitOf(byte, j) then 1 else 0
  {
    PowersOfTwo();
    assert Pow2(8 - j) == 2 * Pow2(8 - (j + 1)) && Pow2(j + 1) == 2 * Pow2(j);
    HalveTwice(byte, Pow2(j));
    var v, p := Value(prefix), Pow2(8 - (j + 1));
    assert v * (2 * p) == 2 * (v * p);
  }

  lemma TakeByte(s: seq<Byte>, i: nat)
    requires i < |s|
    ensures Taken(s[..i], s[i], 8) == Value(s[..i])
    ensures Taken(s[..i], s[i], 0) == Value(s[..i + 1])
  {
    PowersOfTwo();
    assert s[..i + 1][..i] == s[..i] && s[..i + 1][i] == s[i];
  }

  /** `acc` is the nonzero scalar `key` to the power `e`. */
  ghost predicate IsPower(q: nat, key: nat, e: nat, acc: nat)
    requires q > 0
  {
    acc == Pow(key, e) % q && acc != 0
  }

  lemma Squared(q: nat, key: nat, e: nat, acc: nat)
    requires IsPrime(q) && key % q != 0 && IsPower(q, key, e, acc)
    ensures IsPower(q, key, 2 * e, TimesMod(q, acc, acc))
  {
    MulMod(q, Pow(key, e), Pow(key, e));
    PowAdd(key, e, e);
    PowNonzero(q, key, 2 * e);
  }

  lemma Multiplied(q: nat, key: nat, e: nat, acc: nat)
    requires IsPrime(q) && key % q != 0 && IsPower(q, key, e, acc)
    ensures IsPower(q, key, e + 1, TimesMod(q, acc, key))
  {
    MulMod(q, Pow(key, e), key);
    assert Pow(key, e) * key == Pow(key, e + 1);
    PowNonzero(q, key, e + 1);
  }

  lemma {:induction false} PowNonzero(q: nat, key: nat, e: nat)
    requires IsPrime(q) && key % q != 0
    ensures Pow(key, e) % q != 0
    decreases e
  {
    if e == 0 {
      ModUnique(q, 1, 0, 1);
    } else {
      PowNonzero(q, key, e - 1);
      NonzeroProduct(q, key, Pow(key, e - 1));
    }
  }

  /** Lowering the last byte by two lowers the value by two. */
  lemma LowerLast(order: seq<Byte>)
    requires order != [] && order[|order| - 1] >= 2
    ensures Value(order[|order| - 1 := order[|order| - 1] - 2]) == Value(order) - 2
  {
    var n := |order| - 1;
    assert order[n := order[n] - 2][..n] == order[..n];
  }

  /** The inverse of a nonzero scalar: square-and-multiply through the bits of
      the order less two, highest first. No product on the way is zero. */
  method Invert(order: seq<Byte>, key: nat) returns (accumulator: nat)
    requires order != [] && order[|order| - 1] >= 2 && IsPrime(Value(order)) && Value(order) > 2
    requires 0 < key < Value(order)
    ensures accumulator == Inverse(Value(order), key)
    ensures Cong(Value(order), key * accumulator, 1)
  {
    var q, last := Value(order), |order| - 1;
    var exponent := order[last := order[last] - 2];
    LowerLast(order);
    ModUnique(q, key, 0, key);
    ModUnique(q, 1, 0, 1);
    accumulator := 1;
    for i := 0 to |exponent|
      invariant IsPower(q, key, Value(exponent[..i]), accumulator)
    {
      TakeByte(exponent, i);
      var bit := 8;
      while bit > 0
        invariant 0 <= bit <= 8
        invariant IsPower(q, key, Taken(exponent[..i], exponent[i], bit), accumulator)
      {
        ghost var e := Taken(exponent[..i], exponent[i], bit);
        bit := bit - 1;
        TakeBit(exponent[..i], exponent[i], bit);
        Squared(q, key, e, accumulator);
        accumulator := TimesMod(q, accumulator, accumulator);
        if BitOf(exponent[i], bit) {
          Multiplied(q, key, 2 * e, accumulator);
          accumulator := TimesMod(q, accumulator, key);
        }
      }
    }
    assert exponent[..|exponent|] == exponent;
    InverseInverts(q, key);
  }

  function TimesMod(q: nat, a: nat, b: nat): nat
    requires q > 0
  {
    a * b % q
  }

  predicate BitOf(byte: Byte, bit: nat)
    requires bit < 8
  {
    PowersOfTwo();
    byte / Pow2(bit) % 2 == 1
  }

  // ----- the multiplier loop -----

  /** The difference of two distinct evaluation points as a field element. */
  function Difference(q: nat, a: nat, b: nat): (d: nat)
    requires a < q && b < q && a != b
    ensures 0 < d < q && Cong(q, d, a - b)
  {
    if a > b then CongRefl(q, a - b); a - b else CongBy(q, q - (b - a), a - b, 1); q - (b - a)
  }

  /** `acc` is the product of `f` over `done` as a scalar. */
  ghost predicate IsProduct(q: nat, done: set<nat>, f: nat -> int, acc: nat)
    requires q > 0
  {
    acc == ProdOver(done, f) % q
  }

  lemma OneMoreFactor(q: nat, done: set<nat>, x: nat, f: nat -> int, acc: nat, factor: nat)
    requires q > 0 && x !in done && IsProduct(q, done, f, acc) && Cong(q, factor, f(x))
    ensures IsProduct(q, done + {x}, f, TimesMod(q, acc, factor))
  {
    var all, fx := ProdOver(done, f), f(x);
    assert fx * all == all * fx;
    ProdPeel(done + {x}, f, x);
    assert (done + {x}) - {x} == done;
    CongMod(q, all);
    CongMul(q, acc, all, factor, fx);
    CongSame(q, acc * factor, all * fx);
  }

  /** The first `i` nodes of the walk but for `skip`. */
  ghost function Others(s: seq<nat>, i: nat, skip: nat): set<nat>
    requires i <= |s|
  {
    if i == 0 then {}
    else if s[i - 1] == skip then Others(s, i - 1, skip)
    else Others(s, i - 1, skip) + {s[i - 1]}
  }

  lemma {:induction false} OthersAre(s: seq<nat>, i: nat, skip: nat)
    requires i <= |s|
    ensures forall x :: x in Others(s, i, skip) <==> x != skip && exists k :: 0 <= k < i && s[k] == x
    decreases i
  {
    if i > 0 {
      OthersAre(s, i - 1, skip);
      assert s[i - 1] == s[i - 1];
    }
  }

  /** Both products as far as the nodes in `done`. */
  ghost predicate Halfway(q: nat, done: set<nat>, identity: nat, numerator: nat, denominator: nat)
    requires q > 0
  {
    IsProduct(q, done, PointOf, numerator) && IsProduct(q, done, GapTo(identity), denominator)
  }

  lemma EmptyProduct(q: nat, f: nat -> int)
    requires q > 1
    ensures IsProduct(q, {}, f, 1)
  {
    ModUnique(q, 1, 0, 1);
  }

  lemma OneMorePoint(q: nat, done: set<nat>, more: set<nat>, x: nat, acc: nat, next: nat)
    requires q > 0 && x !in done && more == done + {x} && next == TimesMod(q, acc, x + 1)
    requires IsProduct(q, done, PointOf, acc)
    ensures IsProduct(q, more, PointOf, next)
  {
    CongRefl(q, x + 1);
    assert PointOf(x) == x + 1;
    OneMoreFactor(q, done, x, PointOf, acc, x + 1);
  }

  lemma OneMoreGap(q: nat, done: set<nat>, more: set<nat>, x: nat, i: nat, acc: nat, next: nat)
    requires x < q && i < q && x != i && x !in done && more == done + {x}
    requires next == TimesMod(q, acc, Difference(q, x, i)) && IsProduct(q, done, GapTo(i), acc)
    ensures IsProduct(q, more, GapTo(i), next)
  {
    assert GapTo(i)(x) == x - i;
    OneMoreFactor(q, done, x, GapTo(i), acc, Difference(q, x, i));
  }

  /** The two products over the first `i` nodes of the walk but the identity. */
  function Partial(q: nat, walk: seq<nat>, identity: nat, i: nat): (nat, nat)
    requires q > 0 && i <= |walk| && identity < q && Scalar(q, walk)
  {
    if i == 0 then (1, 1) else
      var (numerator, denominator) := Partial(q, walk, identity, i - 1);
      var node := walk[i - 1];
      if node == identity then (numerator, denominator)
      else (TimesMod(q, numerator, node + 1), TimesMod(q, denominator, Difference(q, node, identity)))
  }

  predicate Scalar(q: nat, walk: seq<nat>) {
    forall k :: 0 <= k < |walk| ==> walk[k] < q
  }

  /** The walk comes to each node once. */
  ghost predicate Once(walk: seq<nat>, identity: nat) {
    forall k :: 0 <= k < |walk| ==> NewAt(walk, k, identity)
  }

  ghost predicate NewAt(walk: seq<nat>, k: nat, identity: nat)
    requires k < |walk|
  {
    walk[k] !in Others(walk, k, identity)
  }

  lemma PartialStep(q: nat, walk: seq<nat>, identity: nat, i: nat)
    requires q > 1 && 0 < i <= |walk| && identity < q && Scalar(q, walk)
    ensures var before, after, node := Partial(q, walk, identity, i - 1), Partial(q, walk, identity, i), walk[i - 1];
      if node == identity then after == before && Others(walk, i, identity) == Others(walk, i - 1, identity)
      else
        && after.0 == TimesMod(q, before.0, node + 1) && after.1 == TimesMod(q, before.1, Difference(q, node, identity))
        && Others(walk, i, identity) == Others(walk, i - 1, identity) + {node}
  {
  }

  lemma {:induction false} NumeratorIs(q: nat, walk: seq<nat>, identity: nat, i: nat)
    requires q > 1 && i <= |walk| && identity < q && Scalar(q, walk) && Once(walk, identity)
    ensures IsProduct(q, Others(walk, i, identity), PointOf, Partial(q, walk, identity, i).0)
    decreases i
  {
    if i == 0 {
      EmptyProduct(q, PointOf);
    } else {
      NumeratorIs(q, walk, identity, i - 1);
      PartialStep(q, walk, identity, i);
      assert NewAt(walk, i - 1, identity);
      if walk[i - 1] != identity {
        OneMorePoint(q, Others(walk, i - 1, identity), Others(walk, i, identity), walk[i - 1],
                     Partial(q, walk, identity, i - 1).0, Partial(q, walk, identity, i).0);
      }
    }
  }

  lemma {:induction false} DenominatorIs(q: nat, walk: seq<nat>, identity: nat, i: nat)
    requires q > 1 && i <= |walk| && identity < q && Scalar(q, walk) && Once(walk, identity)
    ensures IsProduct(q, Others(walk, i, identity), GapTo(identity), Partial(q, walk, identity, i).1)
    decreases i
  {
    if i == 0 {
      EmptyProduct(q, GapTo(identity));
    } else {
      DenominatorIs(q, walk, identity, i - 1);
      PartialStep(q, walk, identity, i);
      assert NewAt(walk, i - 1, identity);
      if walk[i - 1] != identity {
        OneMoreGap(q, Others(walk, i - 1, identity), Others(walk, i, identity), walk[i - 1], identity,
                   Partial(q, walk, identity, i - 1).1, Partial(q, walk, identity, i).1);
      }
    }
  }

  lemma AllPartial(q: nat, nodes: set<nat>, identity: nat)
    requires Points(q, nodes) && identity + 1 < q
    ensures Scalar(q, Ascending(nodes))
    ensures var walk := Ascending(nodes);
      var p := Partial(q, walk, identity, |walk|);
      Halfway(q, nodes - {identity}, identity, p.0, p.1)
  {
    var walk := Ascending(nodes);
    AllScalar(q, nodes);
    AllOnce(nodes, identity);
    NumeratorIs(q, walk, identity, |walk|);
    DenominatorIs(q, walk, identity, |walk|);
    AllOthers(nodes, identity);
  }

  lemma AllScalar(q: nat, nodes: set<nat>)
    requires Points(q, nodes)
    ensures Scalar(q, Ascending(nodes))
  {
    var walk := Ascending(nodes);
    forall k | 0 <= k < |walk| ensures walk[k] < q {
      assert walk[k] in walk;
    }
  }

  lemma AllOnce(nodes: set<nat>, identity: nat)
    ensures Once(Ascending(nodes), identity)
  {
    var walk := Ascending(nodes);
    AscendingRises(nodes);
    forall k | 0 <= k < |walk| ensures NewAt(walk, k, identity) {
      OthersAre(walk, k, identity);
    }
  }

  /** The multiplier's numerator and denominator, node by node. */
  method MultiplierParts(q: nat, nodes: set<nat>, identity: nat) returns (numerator: nat, denominator: nat)
    requires Points(q, nodes) && identity + 1 < q
    ensures Halfway(q, nodes - {identity}, identity, numerator, denominator)
  {
    var walk := Ascending(nodes);
    numerator, denominator := 1, 1;
    AllScalar(q, nodes);
    for i := 0 to |walk|
      invariant (numerator, denominator) == Partial(q, walk, identity, i)
    {
      var node := walk[i];
      if node != identity {
        numerator := TimesMod(q, numerator, node + 1);
        denominator := TimesMod(q, denominator, Difference(q, node, identity));
      }
    }
    AllPartial(q, nodes, identity);
  }

  /** The Lagrange multiplier at zero, never zero on the way. */
  method LagrangeMultiplier(order: seq<Byte>, nodes: set<nat>, identity: nat) returns (lambda: nat)
    requires order != [] && order[|order| - 1] >= 2 && Points(Value(order), nodes) && identity + 1 < Value(order)
    ensures lambda == Lambda(Value(order), nodes, identity) && lambda != 0
  {
    var numerator, denominator := MultiplierParts(Value(order), nodes, identity);
    MultiplierEnds(Value(order), nodes, identity, numerator, denominator);
    var inverse := Invert(order, denominator);
    lambda := TimesMod(Value(order), numerator, inverse);
  }

  lemma AllOthers(nodes: set<nat>, identity: nat)
    ensures Others(Ascending(nodes), |Ascending(nodes)|, identity) == nodes - {identity}
  {
    var walk := Ascending(nodes);
    OthersAre(walk, |walk|, identity);
    forall x ensures x in Others(walk, |walk|, identity) <==> x in nodes - {identity} {
      assert x in walk <==> x in nodes;
    }
  }

  lemma MultiplierEnds(q: nat, nodes: set<nat>, i: nat, numerator: nat, denominator: nat)
    requires Points(q, nodes) && i + 1 < q && Halfway(q, nodes - {i}, i, numerator, denominator)
    ensures 0 < denominator < q
    ensures TimesMod(q, numerator, Inverse(q, denominator)) == Lambda(q, nodes, i) != 0
  {
    DenominatorNonzero(q, nodes, i);
    assert numerator == Numerator(nodes, i) % q && denominator == Denominator(nodes, i) % q;
    MulMod(q, Numerator(nodes, i), Inverse(q, denominator));
    LambdaIsWeight(q, nodes, i);
  }
}

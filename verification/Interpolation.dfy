/** Lagrange interpolation at zero modulo a prime. Node `i` holds the value of
    a polynomial at the point `i + 1`; any set of more nodes than the degree
    recovers the value at zero. */
module Interpolation {
  import opened Ordered
  import opened Field

  /** A prime field in which the nodes' evaluation points are nonzero and distinct. */
  predicate Points(q: nat, nodes: set<nat>) {
    IsPrime(q) && q > 2 && forall x :: x in nodes ==> x + 1 < q
  }

  const PointOf: nat -> int := (y: nat) => y + 1

  function GapTo(i: nat): nat -> int {
    (y: nat) => y - i
  }

  /** The product of the other nodes' evaluation points. */
  function Numerator(nodes: set<nat>, i: nat): int {
    ProdOver(nodes - {i}, PointOf)
  }

  /** The product of their differences to the evaluation point of `i`. */
  function Denominator(nodes: set<nat>, i: nat): int {
    ProdOver(nodes - {i}, GapTo(i))
  }

  /** What makes `w` the multiplier of `i`: numerator over denominator. */
  predicate IsWeight(q: nat, nodes: set<nat>, i: nat, w: int)
    requires q > 0
  {
    Cong(q, Denominator(nodes, i) * w, Numerator(nodes, i))
  }

  /** The Lagrange multiplier at zero. */
  function Lambda(q: nat, nodes: set<nat>, i: nat): nat
    requires q > 2
  {
    Numerator(nodes, i) * Inverse(q, Denominator(nodes, i) % q) % q
  }

  lemma DifferenceNonzero(q: nat, x: nat, y: nat)
    requires x < q && y < q && x != y
    ensures (x - y) % q != 0
  {
    if x > y {
      ModUnique(q, x - y, 0, x - y);
    } else {
      ModUnique(q, x - y, -1, q + x - y);
    }
  }

  lemma DenominatorNonzero(q: nat, nodes: set<nat>, i: nat)
    requires Points(q, nodes) && i + 1 < q
    ensures Denominator(nodes, i) % q != 0
  {
    forall y | y in nodes - {i} ensures (y - i) % q != 0 {
      DifferenceNonzero(q, y, i);
    }
    ProdNonzero(q, nodes - {i}, GapTo(i));
  }

  lemma NumeratorNonzero(q: nat, nodes: set<nat>, i: nat)
    requires Points(q, nodes)
    ensures Numerator(nodes, i) % q != 0
  {
    forall y | y in nodes - {i} ensures (y + 1) % q != 0 {
      ModUnique(q, y + 1, 0, y + 1);
    }
    ProdNonzero(q, nodes - {i}, PointOf);
  }

  /** The multiplier is a nonzero scalar and a weight. */
  lemma LambdaIsWeight(q: nat, nodes: set<nat>, i: nat)
    requires Points(q, nodes) && i + 1 < q
    ensures IsWeight(q, nodes, i, Lambda(q, nodes, i)) && Lambda(q, nodes, i) != 0
  {
    var num, den := Numerator(nodes, i), Denominator(nodes, i);
    var inv := Inverse(q, den % q);
    DenominatorNonzero(q, nodes, i);
    NumeratorNonzero(q, nodes, i);
    InverseInverts(q, den % q);
    ModUnique(q, inv, 0, inv);
    NonzeroProduct(q, num, inv);
    CongMod(q, den);
    CongScale(q, inv, den, den % q);
    CongTrans(q, den * inv, (den % q) * inv, 1);
    CongMod(q, num * inv);
    CongScale(q, den, num * inv % q, num * inv);
    CongScale(q, num, den * inv, 1);
    assert den * (num * inv) == num * (den * inv);
    CongTrans(q, den * Lambda(q, nodes, i), den * (num * inv), num * 1);
  }

  /** Weights are unique modulo `q`. */
  lemma WeightsAgree(q: nat, nodes: set<nat>, i: nat, v: int, w: int)
    requires Points(q, nodes) && i + 1 < q && IsWeight(q, nodes, i, v) && IsWeight(q, nodes, i, w)
    ensures Cong(q, v, w)
  {
    var num, den := Numerator(nodes, i), Denominator(nodes, i);
    DenominatorNonzero(q, nodes, i);
    CongSame(q, den * w, num);
    CongTrans(q, den * v, num, den * w);
    Cancel(q, v, w, den);
  }

  lemma PartsWithout(nodes: set<nat>, x: nat, z: nat)
    requires z in nodes && x != z
    ensures Numerator(nodes, x) == (z + 1) * Numerator(nodes - {z}, x)
    ensures Denominator(nodes, x) == (z - x) * Denominator(nodes - {z}, x)
  {
    assert (nodes - {x}) - {z} == (nodes - {z}) - {x};
    ProdPeel(nodes - {x}, PointOf, z);
    ProdPeel(nodes - {x}, GapTo(x), z);
  }

  /** Leaving out node `z` trades a factor `z - x` for its evaluation point. */
  lemma WeightWithout(q: nat, nodes: set<nat>, x: nat, z: nat, v: int, w: int)
    requires Points(q, nodes) && x in nodes && z in nodes && x != z
    requires IsWeight(q, nodes, x, v) && IsWeight(q, nodes - {z}, x, w)
    ensures Cong(q, (z - x) * v, (z + 1) * w)
  {
    var num, den := Numerator(nodes - {z}, x), Denominator(nodes - {z}, x);
    PartsWithout(nodes, x, z);
    DenominatorNonzero(q, nodes - {z}, x);
    CrossCancel(q, z - x, v, z + 1, w, den, num);
  }

  lemma CrossCancel(q: nat, a: int, v: int, b: int, w: int, den: int, num: int)
    requires IsPrime(q) && den % q != 0 && Cong(q, (a * den) * v, b * num) && Cong(q, den * w, num)
    ensures Cong(q, a * v, b * w)
  {
    CongScale(q, b, den * w, num);
    CongSame(q, b * (den * w), b * num);
    assert (a * den) * v == den * (a * v);
    assert b * (den * w) == den * (b * w);
    CongTrans(q, den * (a * v), b * num, den * (b * w));
    Cancel(q, a * v, b * w, den);
  }

  // ----- the interpolating sum -----

  function Terms(q: nat, nodes: set<nat>, f: nat -> int): nat -> int
    requires q > 2
  {
    (x: nat) => Lambda(q, nodes, x) * f(x)
  }

  function Combine(q: nat, nodes: set<nat>, f: nat -> int): int
    requires q > 2
  {
    SumOver(nodes, Terms(q, nodes, f))
  }

  lemma CombineLinear(q: nat, nodes: set<nat>, f: nat -> int, a: int, g: nat -> int, b: int, h: nat -> int)
    requires q > 2 && forall x :: x in nodes ==> f(x) == a * g(x) + b * h(x)
    ensures Combine(q, nodes, f) == a * Combine(q, nodes, g) + b * Combine(q, nodes, h)
  {
    forall x | x in nodes
      ensures Terms(q, nodes, f)(x) == a * Terms(q, nodes, g)(x) + b * Terms(q, nodes, h)(x)
    {
      var l := Lambda(q, nodes, x);
      assert l * (a * g(x) + b * h(x)) == a * (l * g(x)) + b * (l * h(x));
    }
    SumLinear(nodes, Terms(q, nodes, f), a, Terms(q, nodes, g), b, Terms(q, nodes, h));
  }

  function Shifted(z: nat, g: nat -> int): nat -> int {
    (x: nat) => (x - z) * g(x)
  }

  lemma ShiftTerm(q: nat, nodes: set<nat>, z: nat, x: nat, g: nat -> int)
    requires Points(q, nodes) && x in nodes && z in nodes && x != z
    ensures Cong(q, Terms(q, nodes, Shifted(z, g))(x), -(z + 1) * Terms(q, nodes - {z}, g)(x))
  {
    var v, w := Lambda(q, nodes, x), Lambda(q, nodes - {z}, x);
    LambdaIsWeight(q, nodes, x);
    LambdaIsWeight(q, nodes - {z}, x);
    WeightWithout(q, nodes, x, z, v, w);
    Regroup(q, z - x, v, z + 1, w, g(x));
    assert (x - z) * g(x) == -(z - x) * g(x);
  }

  lemma Regroup(q: nat, a: int, v: int, b: int, w: int, d: int)
    requires q > 0 && Cong(q, a * v, b * w)
    ensures Cong(q, v * (-a * d), -b * (w * d))
  {
    CongScale(q, -d, a * v, b * w);
    assert -d * (a * v) == v * (-a * d);
    assert -d * (b * w) == -b * (w * d);
  }

  function Scaled(a: int, f: nat -> int): nat -> int {
    (x: nat) => a * f(x)
  }

  /** Factoring `x - z` out of the values takes node `z` out of the sum. */
  lemma Shift(q: nat, nodes: set<nat>, z: nat, g: nat -> int)
    requires Points(q, nodes) && z in nodes
    ensures Cong(q, Combine(q, nodes, Shifted(z, g)), -(z + 1) * Combine(q, nodes - {z}, g))
  {
    var terms := Terms(q, nodes, Shifted(z, g));
    SumPeel(nodes, terms, z);
    ShiftedAway(q, nodes, z, g);
    ShiftRest(q, nodes, z, -(z + 1), g);
    assert Combine(q, nodes, Shifted(z, g)) == SumOver(nodes - {z}, terms);
  }

  lemma ShiftRest(q: nat, nodes: set<nat>, z: nat, a: int, g: nat -> int)
    requires Points(q, nodes) && z in nodes && a == -(z + 1)
    ensures Cong(q, SumOver(nodes - {z}, Terms(q, nodes, Shifted(z, g))), a * Combine(q, nodes - {z}, g))
  {
    var less, terms := Terms(q, nodes - {z}, g), Terms(q, nodes, Shifted(z, g));
    var scaled := Scaled(a, less);
    forall x | x in nodes - {z} ensures Cong(q, terms(x), scaled(x)) {
      ShiftTerm(q, nodes, z, x, g);
    }
    SumCong(q, nodes - {z}, terms, scaled);
    ScaledSum(nodes - {z}, a, less);
  }

  lemma ShiftedAway(q: nat, nodes: set<nat>, z: nat, g: nat -> int)
    requires q > 2
    ensures Terms(q, nodes, Shifted(z, g))(z) == 0
  {
  }

  lemma ScaledSum(s: set<nat>, a: int, f: nat -> int)
    ensures SumOver(s, Scaled(a, f)) == a * SumOver(s, f)
  {
    SumLinear(s, Scaled(a, f), a, f, 0, f);
  }

  const One: nat -> int := (x: nat) => 1

  /** The multipliers of any nonempty node set sum to one. */
  lemma {:induction false} WeightsSumToOne(q: nat, nodes: set<nat>)
    requires Points(q, nodes) && nodes != {}
    ensures Cong(q, Combine(q, nodes, One), 1)
    decreases nodes
  {
    var z := Least(nodes);
    if nodes - {z} == {} {
      SingleWeight(q, nodes, z);
    } else {
      var w := Least(nodes - {z});
      WeightsSumToOne(q, nodes - {z});
      assert z in nodes - {w};
      WeightsSumToOne(q, nodes - {w});
      Shift(q, nodes, z, One);
      Shift(q, nodes, w, One);
      CombineLinear(q, nodes, Shifted(z, One), 1, Shifted(w, One), w - z, One);
      DifferenceNonzero(q, w, z);
      TwoPoints(q, z, w, Combine(q, nodes, One), Combine(q, nodes, Shifted(z, One)), Combine(q, nodes, Shifted(w, One)),
                Combine(q, nodes - {z}, One), Combine(q, nodes - {w}, One));
    }
  }

  lemma TwoPoints(q: nat, z: nat, w: nat, one: int, byZ: int, byW: int, lessZ: int, lessW: int)
    requires IsPrime(q) && (w - z) % q != 0 && byZ == 1 * byW + (w - z) * one
    requires Cong(q, byZ, -(z + 1) * lessZ) && Cong(q, byW, -(w + 1) * lessW)
    requires Cong(q, lessZ, 1) && Cong(q, lessW, 1)
    ensures Cong(q, one, 1)
  {
    CongScale(q, -(z + 1), lessZ, 1);
    CongScale(q, -(w + 1), lessW, 1);
    CongTrans(q, byZ, -(z + 1) * lessZ, -(z + 1));
    CongTrans(q, byW, -(w + 1) * lessW, -(w + 1));
    CongAdd(q, byZ, -(z + 1), byW, -(w + 1));
    assert (w - z) * one == byZ - byW;
    assert (w - z) * 1 == -(z + 1) - -(w + 1);
    Cancel(q, one, 1, w - z);
  }

  lemma SingleWeight(q: nat, nodes: set<nat>, z: nat)
    requires Points(q, nodes) && z in nodes && nodes - {z} == {}
    ensures Cong(q, Combine(q, nodes, One), 1)
  {
    LambdaIsWeight(q, nodes, z);
    SumPeel(nodes, Terms(q, nodes, One), z);
    assert Denominator(nodes, z) == 1 && Numerator(nodes, z) == 1;
  }

  // ----- polynomials -----

  /** The value at `x` of the polynomial with the given coefficients, lowest
      degree first. */
  function Eval(f: seq<int>, x: int): int {
    if f == [] then 0 else f[0] + x * Eval(f[1..], x)
  }

  function ValuesOf(f: seq<int>): nat -> int {
    (x: nat) => Eval(f, x + 1)
  }

  /** Interpolation at zero: with more nodes than the degree, the multipliers
      combine the nodes' values to the value at zero. */
  lemma {:induction false} Interpolates(q: nat, nodes: set<nat>, f: seq<int>)
    requires Points(q, nodes) && nodes != {} && |f| <= |nodes|
    ensures Cong(q, Combine(q, nodes, ValuesOf(f)), Eval(f, 0))
    decreases |f|
  {
    if f == [] {
      CombineLinear(q, nodes, ValuesOf(f), 0, One, 0, One);
      CongRefl(q, 0);
    } else {
      var g := f[1..];
      WeightsSumToOne(q, nodes);
      if g == [] {
        forall x | x in nodes ensures ValuesOf(f)(x) == f[0] * One(x) + 0 * One(x) {
          assert Eval(g, x + 1) == 0;
        }
        CombineLinear(q, nodes, ValuesOf(f), f[0], One, 0, One);
        CongScale(q, f[0], Combine(q, nodes, One), 1);
      } else {
        var z := Least(nodes);
        assert |nodes - {z}| == |nodes| - 1;
        Interpolates(q, nodes, g);
        Interpolates(q, nodes - {z}, g);
        HornerStep(q, nodes, z, f);
      }
    }
  }

  lemma HornerStep(q: nat, nodes: set<nat>, z: nat, f: seq<int>)
    requires Points(q, nodes) && z in nodes && f != []
    requires Cong(q, Combine(q, nodes, One), 1)
    requires Cong(q, Combine(q, nodes, ValuesOf(f[1..])), Eval(f[1..], 0))
    requires Cong(q, Combine(q, nodes - {z}, ValuesOf(f[1..])), Eval(f[1..], 0))
    ensures Cong(q, Combine(q, nodes, ValuesOf(f)), Eval(f, 0))
  {
    var g := ValuesOf(f[1..]);
    var rest: nat -> int := (x: nat) => Shifted(z, g)(x) + (z + 1) * g(x);
    forall x | x in nodes ensures ValuesOf(f)(x) == f[0] * One(x) + 1 * rest(x) {
      assert (x + 1) * g(x) == (x - z) * g(x) + (z + 1) * g(x);
    }
    CombineLinear(q, nodes, ValuesOf(f), f[0], One, 1, rest);
    CombineLinear(q, nodes, rest, 1, Shifted(z, g), z + 1, g);
    Shift(q, nodes, z, g);
    Recombine(q, z, f[0], Eval(f[1..], 0), Combine(q, nodes, One), Combine(q, nodes, Shifted(z, g)),
              Combine(q, nodes, g), Combine(q, nodes - {z}, g));
  }

  lemma Recombine(q: nat, z: nat, c: int, e: int, one: int, shifted: int, full: int, less: int)
    requires q > 0 && Cong(q, one, 1) && Cong(q, full, e) && Cong(q, less, e) && Cong(q, shifted, -(z + 1) * less)
    ensures Cong(q, c * one + 1 * (1 * shifted + (z + 1) * full), c + 0 * e)
  {
    CongScale(q, c, one, 1);
    CongScale(q, z + 1, full, e);
    CongScale(q, -(z + 1), less, e);
    CongTrans(q, shifted, -(z + 1) * less, -(z + 1) * e);
    CongAdd(q, shifted, -(z + 1) * e, (z + 1) * full, (z + 1) * e);
    assert -(z + 1) * e + (z + 1) * e == 0;
    CongAdd(q, c * one, c, shifted + (z + 1) * full, 0);
  }
}

/** Arithmetic modulo a prime: congruence, Euclid's lemma, products over finite
    sets and Fermat's little theorem, on which scalar inversion rests. */
module Field {
  import opened Ordered

  predicate Cong(q: nat, a: int, b: int)
    requires q > 0
  {
    (a - b) % q == 0
  }

  lemma Apart(q: nat, j: int, k: int)
    requires j > k
    ensures j * q - k * q >= q
  {
    assert j * q - k * q == (j - k) * q;
    assert (j - k) * q == q + (j - k - 1) * q;
  }

  lemma ModUnique(q: nat, x: int, k: int, r: nat)
    requires q > 0 && r < q && x == k * q + r
    ensures x % q == r && x / q == k
  {
    var j := x / q;
    assert x == j * q + x % q;
    if j > k {
      Apart(q, j, k);
    } else if j < k {
      Apart(q, k, j);
    }
  }

  lemma CongBy(q: nat, a: int, b: int, k: int)
    requires q > 0 && a - b == k * q
    ensures Cong(q, a, b)
  {
    ModUnique(q, a - b, k, 0);
  }

  lemma CongGap(q: nat, a: int, b: int) returns (k: int)
    requires q > 0 && Cong(q, a, b)
    ensures a - b == k * q
  {
    k := (a - b) / q;
    assert a - b == k * q + (a - b) % q;
  }

  lemma CongMod(q: nat, a: int)
    requires q > 0
    ensures Cong(q, a % q, a) && Cong(q, a, a % q)
  {
    CongBy(q, a, a % q, a / q);
    assert a % q - a == -(a / q) * q;
    CongBy(q, a % q, a, -(a / q));
  }

  lemma CongSame(q: nat, a: int, b: int)
    requires q > 0 && Cong(q, a, b)
    ensures a % q == b % q && Cong(q, b, a)
  {
    var k := CongGap(q, a, b);
    assert a == (k + b / q) * q + b % q by {
      assert b == (b / q) * q + b % q;
    }
    ModUnique(q, a, k + b / q, b % q);
    assert b - a == (-k) * q;
    CongBy(q, b, a, -k);
  }

  lemma SameCong(q: nat, a: int, b: int)
    requires q > 0 && a % q == b % q
    ensures Cong(q, a, b)
  {
    assert a == (a / q) * q + a % q && b == (b / q) * q + b % q;
    assert a - b == (a / q - b / q) * q;
    CongBy(q, a, b, a / q - b / q);
  }

  lemma CongTrans(q: nat, a: int, b: int, c: int)
    requires q > 0 && Cong(q, a, b) && Cong(q, b, c)
    ensures Cong(q, a, c)
  {
    var j := CongGap(q, a, b);
    var k := CongGap(q, b, c);
    assert a - c == (j + k) * q;
    CongBy(q, a, c, j + k);
  }

  lemma CongAdd(q: nat, a: int, b: int, c: int, d: int)
    requires q > 0 && Cong(q, a, b) && Cong(q, c, d)
    ensures Cong(q, a + c, b + d) && Cong(q, a - c, b - d)
  {
    var j := CongGap(q, a, b);
    var k := CongGap(q, c, d);
    assert (a + c) - (b + d) == (j + k) * q;
    CongBy(q, a + c, b + d, j + k);
    assert (a - c) - (b - d) == (j - k) * q;
    CongBy(q, a - c, b - d, j - k);
  }

  lemma CongMul(q: nat, a: int, b: int, c: int, d: int)
    requires q > 0 && Cong(q, a, b) && Cong(q, c, d)
    ensures Cong(q, a * c, b * d)
  {
    var j := CongGap(q, a, b);
    var k := CongGap(q, c, d);
    assert a == b + j * q && c == d + k * q;
    assert a * c == b * d + (b * k + j * d + j * k * q) * q;
    CongBy(q, a * c, b * d, b * k + j * d + j * k * q);
  }

  lemma CongRefl(q: nat, a: int)
    requires q > 0
    ensures Cong(q, a, a)
  {
    CongBy(q, a, a, 0);
  }

  /** Multiplying by one factor on both sides. */
  lemma CongScale(q: nat, c: int, a: int, b: int)
    requires q > 0 && Cong(q, a, b)
    ensures Cong(q, c * a, c * b) && Cong(q, a * c, b * c)
  {
    CongRefl(q, c);
    CongMul(q, c, c, a, b);
    CongMul(q, a, b, c, c);
  }

  /** Reducing the factors first does not change a product modulo `q`. */
  lemma MulMod(q: nat, a: int, b: int)
    requires q > 0
    ensures (a % q) * (b % q) % q == a * b % q
    ensures (a % q) * b % q == a * b % q
  {
    CongMod(q, a);
    CongMod(q, b);
    CongRefl(q, b);
    CongMul(q, a % q, a, b % q, b);
    CongMul(q, a % q, a, b, b);
    CongSame(q, (a % q) * (b % q), a * b);
    CongSame(q, (a % q) * b, a * b);
  }

  lemma AddMod(q: nat, a: int, b: int)
    requires q > 0
    ensures (a % q + b % q) % q == (a + b) % q
    ensures (a % q + b) % q == (a + b) % q
  {
    CongMod(q, a);
    CongMod(q, b);
    CongRefl(q, b);
    CongAdd(q, a % q, a, b % q, b);
    CongAdd(q, a % q, a, b, b);
    CongSame(q, a % q + b % q, a + b);
    CongSame(q, a % q + b, a + b);
  }

  // ----- primes -----

  predicate IsPrime(q: nat) {
    q > 1 && forall d :: 1 < d < q ==> !Divides(d, q)
  }

  predicate Divides(d: nat, q: nat)
    requires d > 0
  {
    q % d == 0
  }

  /** Euclid's lemma, by descent on the remainder of `q` by `a`. */
  lemma {:induction false} Euclid(q: nat, a: nat, b: int)
    requires IsPrime(q) && 0 < a < q && Cong(q, a * b, 0)
    ensures Cong(q, b, 0)
    decreases a
  {
    if a > 1 {
      var k, r := q / a, q % a;
      assert !Divides(a, q);
      assert q == k * a + r;
      var j := CongGap(q, a * b, 0);
      assert r * b == q * b - k * (a * b);
      assert r * b - 0 == (b - k * j) * q;
      CongBy(q, r * b, 0, b - k * j);
      Euclid(q, r, b);
    }
  }

  /** A product of nonzero scalars is nonzero. */
  lemma NonzeroProduct(q: nat, a: int, b: int)
    requires IsPrime(q) && a % q != 0 && b % q != 0
    ensures a * b % q != 0
  {
    if a * b % q == 0 {
      MulMod(q, a, b);
      assert Cong(q, (a % q) * b, 0);
      Euclid(q, a % q, b);
      assert false;
    }
  }

  /** Nonzero factors cancel. */
  lemma Cancel(q: nat, a: int, b: int, c: int)
    requires IsPrime(q) && c % q != 0 && Cong(q, c * a, c * b)
    ensures Cong(q, a, b)
  {
    assert c * a - c * b == c * (a - b);
    if (a - b) % q != 0 {
      NonzeroProduct(q, c, a - b);
      assert false;
    }
  }

  function Pow(b: int, e: nat): int {
    if e == 0 then 1 else b * Pow(b, e - 1)
  }

  lemma {:induction false} PowAdd(b: int, d: nat, e: nat)
    ensures Pow(b, d + e) == Pow(b, d) * Pow(b, e)
    decreases d
  {
    if d > 0 {
      PowAdd(b, d - 1, e);
      assert b * (Pow(b, d - 1) * Pow(b, e)) == (b * Pow(b, d - 1)) * Pow(b, e);
    }
  }

  // ----- sums and products over finite sets -----

  function SumOver(s: set<nat>, f: nat -> int): int {
    if s == {} then 0 else var x := Least(s); f(x) + SumOver(s - {x}, f)
  }

  function ProdOver(s: set<nat>, f: nat -> int): int {
    if s == {} then 1 else var x := Least(s); f(x) * ProdOver(s - {x}, f)
  }

  lemma LeastWithout(s: set<nat>, z: nat)
    requires z in s && Least(s) != z
    ensures s - {z} != {} && Least(s - {z}) == Least(s)
  {
    assert Least(s) in s - {z};
    assert Least(s - {z}) in s;
  }

  /** Any element can be taken out of a sum. */
  lemma {:induction false} SumPeel(s: set<nat>, f: nat -> int, z: nat)
    requires z in s
    ensures SumOver(s, f) == f(z) + SumOver(s - {z}, f)
    decreases s
  {
    var x := Least(s);
    if x != z {
      SumPeel(s - {x}, f, z);
      assert (s - {x}) - {z} == (s - {z}) - {x};
      LeastWithout(s, z);
    }
  }

  lemma {:induction false} ProdPeel(s: set<nat>, f: nat -> int, z: nat)
    requires z in s
    ensures ProdOver(s, f) == f(z) * ProdOver(s - {z}, f)
    decreases s
  {
    var x := Least(s);
    if x != z {
      ProdPeel(s - {x}, f, z);
      var rest := ProdOver((s - {x}) - {z}, f);
      assert (s - {x}) - {z} == (s - {z}) - {x};
      LeastWithout(s, z);
      assert f(x) * (f(z) * rest) == f(z) * (f(x) * rest);
    }
  }

  lemma {:induction false} SumCong(q: nat, s: set<nat>, f: nat -> int, g: nat -> int)
    requires q > 0 && forall x :: x in s ==> Cong(q, f(x), g(x))
    ensures Cong(q, SumOver(s, f), SumOver(s, g))
    decreases s
  {
    if s == {} {
      CongRefl(q, 0);
    } else {
      var x := Least(s);
      SumCong(q, s - {x}, f, g);
      CongAdd(q, f(x), g(x), SumOver(s - {x}, f), SumOver(s - {x}, g));
    }
  }

  lemma {:induction false} ProdCong(q: nat, s: set<nat>, f: nat -> int, g: nat -> int)
    requires q > 0 && forall x :: x in s ==> Cong(q, f(x), g(x))
    ensures Cong(q, ProdOver(s, f), ProdOver(s, g))
    decreases s
  {
    if s == {} {
      CongRefl(q, 1);
    } else {
      var x := Least(s);
      ProdCong(q, s - {x}, f, g);
      CongMul(q, f(x), g(x), ProdOver(s - {x}, f), ProdOver(s - {x}, g));
    }
  }

  /** A sum is linear in its terms. */
  lemma {:induction false} SumLinear(s: set<nat>, f: nat -> int, a: int, g: nat -> int, b: int, h: nat -> int)
    requires forall x :: x in s ==> f(x) == a * g(x) + b * h(x)
    ensures SumOver(s, f) == a * SumOver(s, g) + b * SumOver(s, h)
    decreases s
  {
    if s != {} {
      var x := Least(s);
      SumLinear(s - {x}, f, a, g, b, h);
      var u, v := SumOver(s - {x}, g), SumOver(s - {x}, h);
      assert a * (g(x) + u) == a * g(x) + a * u;
      assert b * (h(x) + v) == b * h(x) + b * v;
    }
  }

  lemma {:induction false} ProdSplit(s: set<nat>, f: nat -> int, g: nat -> int, h: nat -> int)
    requires forall x :: x in s ==> f(x) == g(x) * h(x)
    ensures ProdOver(s, f) == ProdOver(s, g) * ProdOver(s, h)
    decreases s
  {
    if s != {} {
      var x := Least(s);
      ProdSplit(s - {x}, f, g, h);
      var u, v := ProdOver(s - {x}, g), ProdOver(s - {x}, h);
      assert (g(x) * h(x)) * (u * v) == (g(x) * u) * (h(x) * v);
    }
  }

  lemma {:induction false} ProdNonzero(q: nat, s: set<nat>, f: nat -> int)
    requires IsPrime(q) && forall x :: x in s ==> f(x) % q != 0
    ensures ProdOver(s, f) % q != 0
    decreases s
  {
    if s == {} {
      ModUnique(q, 1, 0, 1);
    } else {
      var x := Least(s);
      ProdNonzero(q, s - {x}, f);
      NonzeroProduct(q, f(x), ProdOver(s - {x}, f));
    }
  }

  lemma {:induction false} ProdConst(s: set<nat>, f: nat -> int, a: int)
    requires forall x :: x in s ==> f(x) == a
    ensures ProdOver(s, f) == Pow(a, |s|)
    decreases s
  {
    if s != {} {
      ProdConst(s - {Least(s)}, f, a);
    }
  }

  function Image(s: set<nat>, f: nat -> nat): set<nat> {
    set x | x in s :: f(x)
  }

  /** Renaming the factors one to one keeps the product. */
  lemma {:induction false} ProdRenamed(s: set<nat>, f: nat -> nat)
    requires forall x, y :: x in s && y in s && f(x) == f(y) ==> x == y
    ensures ProdOver(Image(s, f), (x: nat) => x) == ProdOver(s, (x: nat) => f(x)) && |Image(s, f)| == |s|
    decreases s
  {
    if s != {} {
      var x := Least(s);
      var rest := s - {x};
      ProdRenamed(rest, f);
      assert f(x) !in Image(rest, f);
      assert Image(s, f) == Image(rest, f) + {f(x)};
      assert Image(s, f) - {f(x)} == Image(rest, f);
      ProdPeel(Image(s, f), (x: nat) => x, f(x));
    }
  }

  // ----- Fermat -----

  function Nonzero(q: nat): set<nat> {
    Below(q) - {0}
  }

  function Times(q: nat, a: nat, x: nat): nat
    requires q > 0
  {
    a * x % q
  }

  lemma TimesInjective(q: nat, a: nat, x: nat, y: nat)
    requires IsPrime(q) && 0 < a < q && x < q && y < q && Times(q, a, x) == Times(q, a, y)
    ensures x == y
  {
    SameCong(q, a * x, a * y);
    ModUnique(q, a, 0, a);
    Cancel(q, x, y, a);
    CongSame(q, x, y);
    ModUnique(q, x, 0, x);
    ModUnique(q, y, 0, y);
  }

  lemma TimesNonzero(q: nat, a: nat, x: nat)
    requires IsPrime(q) && 0 < a < q && x in Nonzero(q)
    ensures Times(q, a, x) in Nonzero(q)
  {
    ModUnique(q, a, 0, a);
    ModUnique(q, x, 0, x);
    NonzeroProduct(q, a, x);
  }

  /** Multiplication by a nonzero scalar permutes the nonzero scalars. */
  lemma TimesPermutes(q: nat, a: nat, f: nat -> nat)
    requires IsPrime(q) && 0 < a < q && forall x :: x in Nonzero(q) ==> f(x) == Times(q, a, x)
    ensures ProdOver(Nonzero(q), (x: nat) => f(x)) == ProdOver(Nonzero(q), (x: nat) => x)
  {
    var s := Nonzero(q);
    forall x, y | x in s && y in s && f(x) == f(y) ensures x == y {
      TimesInjective(q, a, x, y);
    }
    ProdRenamed(s, f);
    forall y | y in Image(s, f) ensures y in s {
      var x :| x in s && f(x) == y;
      TimesNonzero(q, a, x);
    }
    SubsetSize(Image(s, f), s);
  }

  lemma ProductTimes(q: nat, a: nat)
    requires IsPrime(q) && 0 < a < q
    ensures Cong(q, ProdOver(Nonzero(q), (x: nat) => x), ProdOver(Nonzero(q), (x: nat) => a * x))
  {
    var s := Nonzero(q);
    var f: nat -> nat := x => if q > 0 then Times(q, a, x) else 0;
    TimesPermutes(q, a, f);
    forall x | x in s ensures Cong(q, f(x), a * x) {
      CongMod(q, a * x);
    }
    ProdCong(q, s, (x: nat) => f(x), (x: nat) => a * x);
  }

  /** Fermat's little theorem. */
  lemma Fermat(q: nat, a: nat)
    requires IsPrime(q) && 0 < a < q
    ensures Cong(q, Pow(a, q - 1), 1)
  {
    var s := Nonzero(q);
    var all := ProdOver(s, (x: nat) => x);
    ProductTimes(q, a);
    ProdSplit(s, (x: nat) => a * x, (x: nat) => a, (x: nat) => x);
    ProdConst(s, (x: nat) => a, a);
    NonzeroCount(q);
    forall x | x in s ensures x % q != 0 {
      ModUnique(q, x, 0, x);
    }
    ProdNonzero(q, s, (x: nat) => x);
    CancelAll(q, all, Pow(a, q - 1));
  }

  lemma NonzeroCount(q: nat)
    requires q > 0
    ensures |Nonzero(q)| == q - 1
  {
    assert Below(q) == Nonzero(q) + {0};
  }

  lemma CancelAll(q: nat, all: int, p: int)
    requires IsPrime(q) && all % q != 0 && Cong(q, all, p * all)
    ensures Cong(q, p, 1)
  {
    CongSame(q, all, p * all);
    assert all * p == p * all && all * 1 == all;
    Cancel(q, p, 1, all);
  }

  /** The inverse the program computes, `a` to the power `q - 2`. */
  function Inverse(q: nat, a: int): nat
    requires q > 2
  {
    Pow(a, q - 2) % q
  }

  /** It is an inverse modulo the prime. */
  lemma InverseInverts(q: nat, a: nat)
    requires IsPrime(q) && q > 2 && 0 < a < q
    ensures Cong(q, a * Inverse(q, a), 1)
    ensures Inverse(q, a) != 0
  {
    Fermat(q, a);
    assert a * Pow(a, q - 2) == Pow(a, q - 1);
    CongMod(q, Pow(a, q - 2));
    CongScale(q, a, Pow(a, q - 2) % q, Pow(a, q - 2));
    CongTrans(q, a * Inverse(q, a), a * Pow(a, q - 2), 1);
    InverseNonzero(q, a, Inverse(q, a));
  }

  lemma InverseNonzero(q: nat, a: int, b: int)
    requires q > 1 && Cong(q, a * b, 1)
    ensures b != 0
  {
    if b == 0 {
      assert a * b == 0;
      ModUnique(q, -1, -1, q - 1);
    }
  }
}

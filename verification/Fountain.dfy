/** Fountain coding: how a message is cut into fragments, what a combined
    fragment is, and what the peeling decoder keeps. */
module Fountain {

  type Bytes = seq<bv8>
  type Checksum = nat

  // ----- cutting the message -----

  function CeilDiv(a: nat, b: nat): nat
    requires b > 0
  {
    (a + b - 1) / b
  }

  /** Rounded-up division is the least number of parts of size `b` that hold `a`. */
  lemma CeilDivLeast(a: nat, b: nat, c: nat)
    requires b > 0
    ensures CeilDiv(a, b) <= c <==> a <= c * b
  {
    var d := CeilDiv(a, b);
    assert (a + b - 1) == d * b + (a + b - 1) % b;
    if d <= c {
      Monotone(d, c, b);
    } else {
      Monotone(c + 1, d, b);
    }
  }

  lemma Monotone(c: nat, d: nat, b: nat)
    requires c <= d
    ensures c * b <= d * b
    ensures (c + 1) * b == c * b + b
  {
  }

  lemma CeilDivPositive(a: nat, b: nat)
    requires a > 0 && b > 0
    ensures CeilDiv(a, b) > 0
  {
    CeilDivLeast(a, b, 0);
  }

  /** The fragment length for messages of `length` bytes. */
  function FragmentLength(length: nat, max: nat): nat
    requires length > 0 && max > 0
  {
    CeilDivPositive(length, max);
    CeilDiv(length, CeilDiv(length, max))
  }

  /** A chosen fragment length is positive, within the maximum, and is what the
      decoder computes from the length and the number of fragments, so that an
      encoder's fragments are accepted. */
  lemma FragmentLengthAgrees(length: nat, max: nat)
    requires length > 0 && max > 0
    ensures 0 < FragmentLength(length, max) <= max
    ensures CeilDiv(length, FragmentLength(length, max)) > 0
    ensures CeilDiv(length, CeilDiv(length, FragmentLength(length, max))) == FragmentLength(length, max)
  {
    CeilDivPositive(length, max);
    var m := CeilDiv(length, max);
    CeilDivPositive(length, m);
    var size := CeilDiv(length, m);
    CeilDivPositive(length, size);
    var n := CeilDiv(length, size);
    CeilDivLeast(length, max, m);
    CeilDivLeast(length, m, max);
    assert m * max == max * m;
    CeilDivLeast(length, m, size);
    CeilDivLeast(length, size, m);
    assert size * m == m * size;
    CeilDivLeast(length, size, n);
    CeilDivLeast(length, n, size);
    assert n * size == size * n;
    CeilDivPositive(length, n);
    var back := CeilDiv(length, n);
    CeilDivLeast(length, n, back);
    CeilDivLeast(length, m, back);
    Monotone(n, m, back);
    assert back * n == n * back && back * m == m * back;
  }

  /** It is the choice, within the maximum, of the fewest fragments, and of the
      shortest that are as few. */
  lemma FragmentLengthLeast(length: nat, max: nat, other: nat)
    requires length > 0 && max > 0 && 0 < other <= max
    ensures FragmentLength(length, max) > 0
    ensures var size := FragmentLength(length, max);
      || CeilDiv(length, size) < CeilDiv(length, other)
      || (CeilDiv(length, size) == CeilDiv(length, other) && size <= other)
  {
    FragmentLengthAgrees(length, max);
    CeilDivPositive(length, max);
    var fewest, size, count := CeilDiv(length, max), FragmentLength(length, max), CeilDiv(length, other);
    CeilDivLeast(length, fewest, size);
    assert size * fewest == fewest * size;
    CeilDivLeast(length, size, fewest);
    CeilDivLeast(length, other, count);
    Monotone(other, max, count);
    assert count * other == other * count && max * count == count * max;
    CeilDivLeast(length, max, count);
    if count == fewest {
      CeilDivLeast(length, fewest, other);
      assert other * fewest == fewest * other;
      AsFew(length, size, max);
    }
  }

  lemma AsFew(length: nat, size: nat, max: nat)
    requires length > 0 && 0 < size <= max
    ensures CeilDiv(length, max) <= CeilDiv(length, size)
  {
    var n := CeilDiv(length, size);
    CeilDivLeast(length, size, n);
    Monotone(size, max, n);
    assert n * size == size * n && n * max == max * n;
    CeilDivLeast(length, max, n);
  }

  /** The message padded with zeros and cut into fragments of equal length. */
  function Partition(data: Bytes, size: nat): seq<Bytes>
    requires size > 0
  {
    var padding := (size - |data| % size) % size;
    Chunks(data + Zeros(padding), size)
  }

  function Zeros(n: nat): (z: Bytes)
    ensures |z| == n
  {
    seq(n, i => 0)
  }

  function Chunks(data: Bytes, size: nat): seq<Bytes>
    requires size > 0
    decreases |data|
  {
    if data == [] then []
    else if |data| <= size then [data]
    else [data[..size]] + Chunks(data[size..], size)
  }

  function Concat(parts: seq<Bytes>): Bytes {
    if parts == [] then [] else parts[0] + Concat(parts[1..])
  }

  lemma {:induction false} ChunksJoin(data: Bytes, size: nat, n: nat)
    requires size > 0 && |data| == n * size
    ensures Concat(Chunks(data, size)) == data && |Chunks(data, size)| == n
    ensures forall i :: 0 <= i < |Chunks(data, size)| ==> |Chunks(data, size)[i]| == size
    decreases n
  {
    if n == 0 {
      assert data == [];
    } else if n == 1 {
      assert Concat([data][1..]) == [];
    } else {
      Monotone(2, n, size);
      assert |data[size..]| == (n - 1) * size;
      ChunksJoin(data[size..], size, n - 1);
      assert data == data[..size] + data[size..];
      assert Chunks(data, size)[1..] == Chunks(data[size..], size);
    }
  }

  /** Cutting loses nothing: the fragments are as many as the length asks for,
      equally long, and one after the other the message and then zeros. */
  lemma PartitionJoins(data: Bytes, size: nat)
    requires size > 0
    ensures var parts := Partition(data, size);
      && |parts| == CeilDiv(|data|, size)
      && (forall i :: 0 <= i < |parts| ==> |parts[i]| == size)
      && |data| <= |Concat(parts)| && Concat(parts)[..|data|] == data
      && forall i :: |data| <= i < |Concat(parts)| ==> Concat(parts)[i] == 0
  {
    var padding := (size - |data| % size) % size;
    var n := CeilDiv(|data|, size);
    PaddedLength(|data|, size);
    ChunksJoin(data + Zeros(padding), size, n);
  }

  lemma PaddedLength(length: nat, size: nat)
    requires size > 0
    ensures length + (size - length % size) % size == CeilDiv(length, size) * size
  {
    var k, r := length / size, length % size;
    assert length == k * size + r;
    if r == 0 {
      DivIs(length + size - 1, size, k, size - 1);
      DivIs(size, size, 1, 0);
    } else {
      Monotone(k, k, size);
      DivIs(length + size - 1, size, k + 1, r - 1);
      DivIs(size - r, size, 0, size - r);
    }
  }

  lemma DivIs(x: nat, b: nat, k: nat, r: nat)
    requires b > 0 && r < b && x == k * b + r
    ensures x / b == k && x % b == r
  {
    var j, s := x / b, x % b;
    assert x == j * b + s;
    if j < k {
      Monotone(j + 1, k, b);
      Monotone(j, j, b);
    } else if k < j {
      Monotone(k + 1, j, b);
      Monotone(k, k, b);
    }
  }

  // ----- combining fragments -----

  function Xor(a: Bytes, b: Bytes): (r: Bytes)
    requires |a| == |b|
    ensures |r| == |a|
  {
    seq(|a|, i requires 0 <= i < |a| => a[i] ^ b[i])
  }

  lemma XorTwice(a: Bytes, b: Bytes)
    requires |a| == |b|
    ensures Xor(Xor(a, b), b) == a
  {
    forall i | 0 <= i < |a| ensures Xor(Xor(a, b), b)[i] == a[i] {
      BitTwice(a[i], b[i]);
    }
  }

  lemma BitTwice(x: bv8, y: bv8)
    ensures (x ^ y) ^ y == x
  {
  }

  lemma XorSwap(a: Bytes, b: Bytes, c: Bytes)
    requires |a| == |b| == |c|
    ensures Xor(Xor(a, b), c) == Xor(Xor(a, c), b)
  {
    forall i | 0 <= i < |a| ensures Xor(Xor(a, b), c)[i] == Xor(Xor(a, c), b)[i] {
      BitSwap(a[i], b[i], c[i]);
    }
  }

  lemma BitSwap(x: bv8, y: bv8, z: bv8)
    ensures (x ^ y) ^ z == (x ^ z) ^ y
  {
  }

  predicate Equal(sources: seq<Bytes>, size: nat) {
    forall i :: 0 <= i < |sources| ==> |sources[i]| == size
  }

  predicate Within(indexes: seq<nat>, n: nat) {
    forall i :: 0 <= i < |indexes| ==> indexes[i] < n
  }

  predicate Distinct(indexes: seq<nat>) {
    forall i, j :: 0 <= i < j < |indexes| ==> indexes[i] != indexes[j]
  }

  /** The fragments at `indexes` xored together. */
  function Combined(sources: seq<Bytes>, size: nat, indexes: seq<nat>): (r: Bytes)
    requires Equal(sources, size) && Within(indexes, |sources|)
    ensures |r| == size
  {
    if indexes == [] then Zeros(size) else
      var last := |indexes| - 1;
      Xor(Combined(sources, size, indexes[..last]), sources[indexes[last]])
  }

  lemma CombinedAppend(sources: seq<Bytes>, size: nat, indexes: seq<nat>, y: nat)
    requires Equal(sources, size) && Within(indexes, |sources|) && y < |sources|
    ensures Combined(sources, size, indexes + [y]) == Xor(Combined(sources, size, indexes), sources[y])
  {
    assert (indexes + [y])[..|indexes|] == indexes;
  }

  lemma CombinedOne(sources: seq<Bytes>, size: nat, i: nat)
    requires Equal(sources, size) && i < |sources|
    ensures Combined(sources, size, [i]) == sources[i]
  {
    assert [] + [i] == [i];
    CombinedAppend(sources, size, [], i);
    var r := Combined(sources, size, [i]);
    forall k | 0 <= k < size ensures r[k] == sources[i][k] {
      BitZero(sources[i][k]);
    }
  }

  lemma BitZero(x: bv8)
    ensures 0 ^ x == x
  {
  }

  /** The indexes outside `dropped`, in order. */
  function Keep(indexes: seq<nat>, dropped: set<nat>): (r: seq<nat>)
    ensures |r| <= |indexes|
    ensures forall x :: x in r <==> x in indexes && x !in dropped
  {
    if indexes == [] then [] else
      var last := |indexes| - 1;
      if indexes[last] in dropped then Keep(indexes[..last], dropped)
      else Keep(indexes[..last], dropped) + [indexes[last]]
  }

  lemma KeepAppend(indexes: seq<nat>, y: nat, dropped: set<nat>)
    ensures Keep(indexes + [y], dropped) ==
      if y in dropped then Keep(indexes, dropped) else Keep(indexes, dropped) + [y]
  {
    assert (indexes + [y])[..|indexes|] == indexes;
  }

  lemma {:induction false} KeepDistinct(indexes: seq<nat>, dropped: set<nat>)
    requires Distinct(indexes)
    ensures Distinct(Keep(indexes, dropped))
    decreases |indexes|
  {
    if indexes != [] {
      var last := |indexes| - 1;
      KeepDistinct(indexes[..last], dropped);
      assert forall j ::
        0 <= j < |Keep(indexes[..last], dropped)| ==> Keep(indexes[..last], dropped)[j] in indexes[..last];
    }
  }

  lemma {:induction false} KeepAll(indexes: seq<nat>, dropped: set<nat>)
    requires forall x :: x in indexes ==> x !in dropped
    ensures Keep(indexes, dropped) == indexes
    decreases |indexes|
  {
    if indexes != [] {
      var last := |indexes| - 1;
      assert indexes[last] in indexes;
      assert forall x :: x in indexes[..last] ==> x in indexes;
      KeepAll(indexes[..last], dropped);
      assert indexes == indexes[..last] + [indexes[last]];
    }
  }

  lemma KeepWithin(indexes: seq<nat>, dropped: set<nat>, n: nat)
    requires Within(indexes, n)
    ensures Within(Keep(indexes, dropped), n)
  {
    var kept := Keep(indexes, dropped);
    forall i | 0 <= i < |kept| ensures kept[i] < n {
      assert kept[i] in kept;
    }
  }

  /** Dropping one index takes exactly one off the count. */
  lemma {:induction false} KeepCount(indexes: seq<nat>, x: nat)
    requires Distinct(indexes) && x in indexes
    ensures |Keep(indexes, {x})| == |indexes| - 1
    decreases |indexes|
  {
    var last := |indexes| - 1;
    var init := indexes[..last];
    assert indexes == init + [indexes[last]];
    if indexes[last] == x {
      assert x !in init;
      KeepAll(init, {x});
    } else {
      KeepCount(init, x);
    }
  }

  /** Xoring out one of the combined fragments leaves the others combined. */
  lemma {:induction false} DropOne(sources: seq<Bytes>, size: nat, indexes: seq<nat>, x: nat)
    requires Equal(sources, size) && Within(indexes, |sources|) && Distinct(indexes) && x in indexes
    ensures x < |sources| && Within(Keep(indexes, {x}), |sources|)
    ensures Xor(Combined(sources, size, indexes), sources[x]) == Combined(sources, size, Keep(indexes, {x}))
    decreases |indexes|
  {
    var last := |indexes| - 1;
    var init, y := indexes[..last], indexes[last];
    assert indexes == init + [y];
    KeepWithin(indexes, {x}, |sources|);
    KeepWithin(init, {x}, |sources|);
    KeepAppend(init, y, {x});
    CombinedAppend(sources, size, init, y);
    if y == x {
      assert x !in init;
      KeepAll(init, {x});
      XorTwice(Combined(sources, size, init), sources[x]);
    } else {
      DropOne(sources, size, init, x);
      XorSwap(Combined(sources, size, init), sources[y], sources[x]);
      CombinedAppend(sources, size, Keep(init, {x}), y);
    }
  }

  lemma {:induction false} KeepTwice(indexes: seq<nat>, a: set<nat>, b: set<nat>)
    ensures Keep(Keep(indexes, a), b) == Keep(indexes, a + b)
    decreases |indexes|
  {
    if indexes != [] {
      var last := |indexes| - 1;
      var init, y := indexes[..last], indexes[last];
      KeepTwice(init, a, b);
      if y !in a {
        KeepAppend(Keep(init, a), y, b);
      }
    }
  }
}

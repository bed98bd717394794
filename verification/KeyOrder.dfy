/** The order of keys against the order of their encodings. */
module KeyOrder {
  import opened Ordered
  import opened BigEndian
  import opened Codec

  // ----- keys are strictly ordered -----

  lemma {:induction false} LessIrreflexive(a: Datum)
    ensures !Less(a, a)
    decreases a
  {
    match a
    case Letters(x) => LexTotal(x, x);
    case Both(p, q) => LessIrreflexive(p); LessIrreflexive(q);
    case Present(x) => LessIrreflexive(x);
    case Good(x) => LessIrreflexive(x);
    case Bad(x) => LessIrreflexive(x);
    case Items(xs) => LessItemsIrreflexive(xs);
    case Table(xs) => LessRowsIrreflexive(xs);
    case _ =>
  }

  lemma {:induction false} LessItemsIrreflexive(xs: seq<Datum>)
    ensures !LessItems(xs, xs)
    decreases xs
  {
    if xs != [] {
      LessIrreflexive(xs[0]);
      LessItemsIrreflexive(xs[1..]);
    }
  }

  lemma LessRowIrreflexive(r: Row)
    ensures !LessRow(r, r)
    decreases r
  {
    LessIrreflexive(r.key);
    LessIrreflexive(r.value);
  }

  lemma {:induction false} LessRowsIrreflexive(xs: seq<Row>)
    ensures !LessRows(xs, xs)
    decreases xs
  {
    if xs != [] {
      LessRowIrreflexive(xs[0]);
      LessRowsIrreflexive(xs[1..]);
    }
  }

  lemma {:induction false} LessTransitive(a: Datum, b: Datum, c: Datum)
    requires Less(a, b) && Less(b, c)
    ensures Less(a, c)
    decreases a
  {
    match (a, b, c)
    case (Letters(x), Letters(y), Letters(z)) => LexTransitive(x, y, z);
    case (Both(p, q), Both(r, s), Both(t, u)) =>
      if Less(p, r) && Less(r, t) {
        LessTransitive(p, r, t);
      } else if p == r && r == t {
        LessTransitive(q, s, u);
      }
    case (Present(x), Present(y), Present(z)) => LessTransitive(x, y, z);
    case (Good(x), Good(y), Good(z)) => LessTransitive(x, y, z);
    case (Bad(x), Bad(y), Bad(z)) => LessTransitive(x, y, z);
    case (Items(xs), Items(ys), Items(zs)) => LessItemsTransitive(xs, ys, zs);
    case (Table(xs), Table(ys), Table(zs)) => LessRowsTransitive(xs, ys, zs);
    case _ =>
  }

  lemma {:induction false} LessItemsTransitive(a: seq<Datum>, b: seq<Datum>, c: seq<Datum>)
    requires LessItems(a, b) && LessItems(b, c)
    ensures LessItems(a, c)
    decreases a
  {
    if a != [] {
      if Less(a[0], b[0]) && Less(b[0], c[0]) {
        LessTransitive(a[0], b[0], c[0]);
      } else if a[0] == b[0] && b[0] == c[0] && LessItems(a[1..], b[1..]) && LessItems(b[1..], c[1..]) {
        LessItemsTransitive(a[1..], b[1..], c[1..]);
      }
    }
  }

  lemma LessRowTransitive(a: Row, b: Row, c: Row)
    requires LessRow(a, b) && LessRow(b, c)
    ensures LessRow(a, c)
    decreases a
  {
    if Less(a.key, b.key) && Less(b.key, c.key) {
      LessTransitive(a.key, b.key, c.key);
    } else if a.key == b.key && b.key == c.key && Less(a.value, b.value) && Less(b.value, c.value) {
      LessTransitive(a.value, b.value, c.value);
    }
  }

  lemma {:induction false} LessRowsTransitive(a: seq<Row>, b: seq<Row>, c: seq<Row>)
    requires LessRows(a, b) && LessRows(b, c)
    ensures LessRows(a, c)
    decreases a
  {
    if a != [] {
      if LessRow(a[0], b[0]) && LessRow(b[0], c[0]) {
        LessRowTransitive(a[0], b[0], c[0]);
      } else if a[0] == b[0] && b[0] == c[0] && LessRows(a[1..], b[1..]) && LessRows(b[1..], c[1..]) {
        LessRowsTransitive(a[1..], b[1..], c[1..]);
      }
    }
  }

  // ----- and totally, lexicographically -----

  /** Of two values of a type, one is less or they are the same. */
  lemma {:induction false} LessTotal(a: Datum, b: Datum, t: Type)
    requires IsOf(a, t) && IsOf(b, t)
    ensures Less(a, b) || a == b || Less(b, a)
    decreases t, 1
  {
    match t
    case UInt(_) =>
    case Int32 =>
    case Bool =>
    case Unit =>
    case Text => LexTotal(a.utf8, b.utf8);
    case Pair(p, q) =>
      LessTotal(a.fst, b.fst, p);
      LessTotal(a.snd, b.snd, q);
    case OptionOf(p) =>
      if a.Present? && b.Present? {
        LessTotal(a.v, b.v, p);
      }
    case ResultOf(p, q) =>
      if a.Good? && b.Good? {
        LessTotal(a.v, b.v, p);
      } else if a.Bad? && b.Bad? {
        LessTotal(a.v, b.v, q);
      }
    case VecOf(p) => ItemsTotal(a.items, b.items, p);
    case ArrayOf(p, _) => ItemsTotal(a.items, b.items, p);
    case MapOf(_, _) => RowsTotal(a.rows, b.rows, None, None, t);
  }

  lemma {:induction false} ItemsTotal(a: seq<Datum>, b: seq<Datum>, t: Type)
    requires AllOf(a, t) && AllOf(b, t)
    ensures LessItems(a, b) || a == b || LessItems(b, a)
    decreases t, 2, |a|
  {
    if a != [] && b != [] {
      LessTotal(a[0], b[0], t);
      ItemsTotal(a[1..], b[1..], t);
      assert a == [a[0]] + a[1..] && b == [b[0]] + b[1..];
    }
  }

  lemma {:induction false} RowsTotal(a: seq<Row>, b: seq<Row>, p: Option<Datum>, q: Option<Datum>, t: Type)
    requires t.MapOf? && AllRows(a, p, t) && AllRows(b, q, t)
    ensures LessRows(a, b) || a == b || LessRows(b, a)
    decreases t, 0, |a|
  {
    if a != [] && b != [] {
      LessTotal(a[0].key, b[0].key, t.key);
      LessTotal(a[0].value, b[0].value, t.value);
      RowsTotal(a[1..], b[1..], Some(a[0].key), Some(b[0].key), t);
      assert a == [a[0]] + a[1..] && b == [b[0]] + b[1..];
    }
  }

  /** `a` and `b` agree before `n`, where `a` ends or has the lesser element. */
  ghost predicate Splits<T>(a: seq<T>, b: seq<T>, n: nat, less: (T, T) -> bool) {
    n <= |a| && n < |b| && a[..n] == b[..n] && (n < |a| ==> less(a[n], b[n]))
  }

  lemma SplitsOn<T>(a: seq<T>, b: seq<T>, n: nat, less: (T, T) -> bool)
    requires a != [] && b != [] && a[0] == b[0]
    ensures Splits(a, b, n + 1, less) <==> Splits(a[1..], b[1..], n, less)
  {
    assert n + 1 <= |a| ==> a[..n + 1] == [a[0]] + a[1..][..n];
    assert n + 1 <= |b| ==> b[..n + 1] == [b[0]] + b[1..][..n];
    if n + 1 <= |a| && n + 1 <= |b| && a[..n + 1] == b[..n + 1] {
      assert a[..n + 1][1..] == b[..n + 1][1..];
    }
  }

  predicate Below(x: Byte, y: Byte) {
    x < y
  }

  /** Strings compare at the first byte they differ in, the shorter first. */
  lemma {:induction false} BytesCompare(a: Bytes, b: Bytes)
    ensures Less(Letters(a), Letters(b)) <==> exists n: nat :: Splits(a, b, n, Below)
    decreases |a|
  {
    if a == [] || b == [] || a[0] != b[0] {
      FirstSplits(a, b, Below);
    } else {
      BytesCompare(a[1..], b[1..]);
      SplitsLater(a, b, Below);
    }
  }

  /** Vectors and arrays at the first item, the shorter first. */
  lemma {:induction false} ItemsCompare(a: seq<Datum>, b: seq<Datum>)
    ensures Less(Items(a), Items(b)) <==> exists n: nat :: Splits(a, b, n, Less)
    decreases |a|
  {
    if a == [] || b == [] || a[0] != b[0] {
      FirstSplits(a, b, Less);
    } else {
      ItemsCompare(a[1..], b[1..]);
      LessIrreflexive(a[0]);
      SplitsLater(a, b, Less);
    }
  }

  /** A row comes before another by its key, and by its value for the same key. */
  predicate KeyFirst(a: Row, b: Row) {
    if a.key == b.key then Less(a.value, b.value) else Less(a.key, b.key)
  }

  /** Maps at the first row, the shorter first. */
  lemma {:induction false} RowsCompare(a: seq<Row>, b: seq<Row>)
    ensures Less(Table(a), Table(b)) <==> exists n: nat :: Splits(a, b, n, KeyFirst)
    decreases |a|
  {
    if a != [] && b != [] {
      LessIrreflexive(a[0].key);
      LessIrreflexive(a[0].value);
      assert KeyFirst(a[0], b[0]) <==> LessRow(a[0], b[0]);
    }
    if a == [] || b == [] || a[0] != b[0] {
      FirstSplits(a, b, KeyFirst);
    } else {
      RowsCompare(a[1..], b[1..]);
      SplitsLater(a, b, KeyFirst);
    }
  }

  lemma SameHead<T>(a: seq<T>, b: seq<T>, n: nat)
    requires 0 < n <= |a| && n <= |b| && a[..n] == b[..n]
    ensures a[0] == b[0]
  {
    assert a[..n][0] == b[..n][0];
  }

  /** Where the first elements differ, or there is none, nothing else counts. */
  lemma FirstSplits<T(!new)>(a: seq<T>, b: seq<T>, less: (T, T) -> bool)
    requires a == [] || b == [] || a[0] != b[0]
    ensures (exists n: nat :: Splits(a, b, n, less)) <==> b != [] && (a == [] || less(a[0], b[0]))
  {
    forall n: nat | Splits(a, b, n, less) ensures n == 0 {
      if n > 0 {
        SameHead(a, b, n);
      }
    }
    assert b != [] && (a == [] || less(a[0], b[0])) ==> Splits(a, b, 0, less);
  }

  /** Where they are the same, and not less than themselves, the rest decides. */
  lemma SplitsLater<T(!new)>(a: seq<T>, b: seq<T>, less: (T, T) -> bool)
    requires a != [] && b != [] && a[0] == b[0] && !less(a[0], b[0])
    ensures (exists n: nat :: Splits(a, b, n, less)) <==> exists n: nat :: Splits(a[1..], b[1..], n, less)
  {
    if exists n: nat :: Splits(a, b, n, less) {
      var n: nat :| Splits(a, b, n, less);
      assert n != 0;
      SplitsOn(a, b, n - 1, less);
    }
    if exists n: nat :: Splits(a[1..], b[1..], n, less) {
      var n: nat :| Splits(a[1..], b[1..], n, less);
      SplitsOn(a, b, n, less);
    }
  }

  /** The rest of the order: numbers and flags by value, and pairs by the first
      element that differs; */
  lemma PlainCompare(m: int, n: int, a: Datum, b: Datum, c: Datum, d: Datum)
    ensures Less(Number(m), Number(n)) <==> m < n
    ensures Less(Flag(false), Flag(true)) && !Less(Flag(true), Flag(false))
    ensures Less(Both(a, b), Both(c, d)) <==> if a == c then Less(b, d) else Less(a, c)
  {
    LessIrreflexive(a);
  }

  /** none before some, and success before error. */
  lemma TaggedCompare(a: Datum, b: Datum)
    ensures Less(Absent, Present(a)) && !Less(Present(a), Absent) && (Less(Present(a), Present(b)) <==> Less(a, b))
    ensures Less(Good(a), Bad(b)) && !Less(Bad(b), Good(a))
    ensures (Less(Good(a), Good(b)) <==> Less(a, b)) && (Less(Bad(a), Bad(b)) <==> Less(a, b))
  {
  }

  /** Comparing neighbours is enough: every key of a decoded map is above all
      before it, so the decoder's duplicate check never fires. */
  lemma {:induction false} KeysAscend(rows: seq<Row>, prev: Option<Datum>, t: Type, j: nat)
    requires t.MapOf? && AllRows(rows, prev, t) && j < |rows|
    ensures After(prev, rows[j].key)
    ensures forall i :: 0 <= i < j ==> Less(rows[i].key, rows[j].key) && rows[i].key != rows[j].key
    decreases |rows|
  {
    if j > 0 {
      KeysAscend(rows[1..], Some(rows[0].key), t, j - 1);
      if prev.Some? {
        LessTransitive(prev.value, rows[0].key, rows[j].key);
      }
      forall i | 0 <= i < j ensures Less(rows[i].key, rows[j].key) {
        if i > 0 {
          assert rows[1..][i - 1] == rows[i] && rows[1..][j - 1] == rows[j];
        }
      }
    }
    LessIrreflexive(rows[j].key);
  }

  // ----- byte order -----

  lemma {:induction false} LexTotal(a: Bytes, b: Bytes)
    ensures LexLess(a, b) || LexLess(b, a) || a == b
    ensures !(LexLess(a, b) && LexLess(b, a)) && !LexLess(a, a)
    decreases |a|
  {
    if a != [] {
      LexTotal(a[1..], a[1..]);
      if b != [] && a[0] == b[0] {
        LexTotal(a[1..], b[1..]);
        assert a == [a[0]] + a[1..] && b == [b[0]] + b[1..];
      }
    }
  }

  lemma {:induction false} LexTransitive(a: Bytes, b: Bytes, c: Bytes)
    requires LexLess(a, b) && LexLess(b, c)
    ensures LexLess(a, c)
    decreases |a|
  {
    if a != [] && a[0] == b[0] == c[0] {
      LexTransitive(a[1..], b[1..], c[1..]);
    }
  }

  /** Neither starts the other, unless they are the same. */
  predicate Apart(a: Bytes, b: Bytes) {
    a == b || (!(a <= b) && !(b <= a))
  }

  /** Byte strings that do not start one another decide the order of what
      follows them only when they are equal. */
  lemma {:induction false} LexConcat(a: Bytes, b: Bytes, x: Bytes, y: Bytes)
    requires Apart(a, b)
    ensures LexLess(a + x, b + y) <==> LexLess(a, b) || (a == b && LexLess(x, y))
    decreases |a|
  {
    if a == [] || b == [] {
      assert a == b == [];
      assert a + x == x && b + y == y;
    } else {
      assert (a + x)[1..] == a[1..] + x && (b + y)[1..] == b[1..] + y;
      assert a == [a[0]] + a[1..] && b == [b[0]] + b[1..];
      if a[0] == b[0] {
        LexConcat(a[1..], b[1..], x, y);
      }
    }
  }

  /** Big-endian bytes compare like the numbers. */
  lemma {:induction false} NumbersInOrder(m: nat, n: nat, width: nat)
    requires m < Power(width) && n < Power(width)
    ensures LexLess(ToBytes(m, width), ToBytes(n, width)) <==> m < n
    decreases width
  {
    if width > 0 {
      NumbersInOrder(m / 256, n / 256, width - 1);
      var a, b := ToBytes(m / 256, width - 1), ToBytes(n / 256, width - 1);
      LexConcat(a, b, [m % 256], [n % 256]);
      ValueOfBytes(m / 256, width - 1);
      ValueOfBytes(n / 256, width - 1);
      assert LexLess([m % 256], [n % 256]) <==> m % 256 < n % 256;
    }
  }

  /** Types whose encodings keep the order of the values. Signed integers,
      results, strings and length-prefixed collections do not. */
  predicate InOrder(t: Type) {
    match t
    case UInt(_) => true
    case Bool => true
    case Unit => true
    case Pair(a, b) => InOrder(a) && InOrder(b)
    case OptionOf(a) => InOrder(a)
    case ArrayOf(a, _) => InOrder(a)
    case _ => false
  }

  lemma EncodingsApart(v: Datum, w: Datum, t: Type)
    requires IsOf(v, t) && IsOf(w, t)
    ensures Apart(Encode(v, t), Encode(w, t)) && (Encode(v, t) == Encode(w, t) ==> v == w)
  {
    if Encode(v, t) <= Encode(w, t) {
      PrefixFree(v, w, t);
    }
    if Encode(w, t) <= Encode(v, t) {
      PrefixFree(w, v, t);
    }
  }

  /** Encoded byte order is the order of the keys. */
  lemma {:induction false} OrderPreserved(v: Datum, w: Datum, t: Type)
    requires InOrder(t) && IsOf(v, t) && IsOf(w, t)
    ensures LexLess(Encode(v, t), Encode(w, t)) <==> Less(v, w)
    decreases t, 1
  {
    match t
    case UInt(width) => NumbersInOrder(v.n, w.n, width);
    case Bool =>
    case Unit =>
    case Pair(a, b) =>
      EncodingsApart(v.fst, w.fst, a);
      LexConcat(Encode(v.fst, a), Encode(w.fst, a), Encode(v.snd, b), Encode(w.snd, b));
      OrderPreserved(v.fst, w.fst, a);
      OrderPreserved(v.snd, w.snd, b);
      LessIrreflexive(v.fst);
    case OptionOf(a) => OptionInOrder(v, w, a);
    case ArrayOf(a, n) => ItemsInOrder(v.items, w.items, a);
  }

  lemma OptionInOrder(v: Datum, w: Datum, a: Type)
    requires InOrder(a) && IsOf(v, OptionOf(a)) && IsOf(w, OptionOf(a))
    ensures LexLess(Encode(v, OptionOf(a)), Encode(w, OptionOf(a))) <==> Less(v, w)
    decreases OptionOf(a), 0
  {
    if v.Present? && w.Present? {
      OrderPreserved(v.v, w.v, a);
      LexConcat([1], [1], Encode(v.v, a), Encode(w.v, a));
    }
  }

  lemma {:induction false} ItemsInOrder(v: seq<Datum>, w: seq<Datum>, t: Type)
    requires InOrder(t) && AllOf(v, t) && AllOf(w, t) && |v| == |w|
    ensures LexLess(EncodeItems(v, t), EncodeItems(w, t)) <==> LessItems(v, w)
    decreases t, 2, |v|
  {
    if v != [] {
      EncodingsApart(v[0], w[0], t);
      LexConcat(Encode(v[0], t), Encode(w[0], t), EncodeItems(v[1..], t), EncodeItems(w[1..], t));
      OrderPreserved(v[0], w[0], t);
      ItemsInOrder(v[1..], w[1..], t);
      LessIrreflexive(v[0]);
    }
  }

  /** A signed key breaks the order: -1 sorts above 0. */
  lemma SignedKeysDisorder()
    ensures IsOf(Number(-1), Int32) && IsOf(Number(0), Int32) && Less(Number(-1), Number(0))
    ensures !LexLess(Encode(Number(-1), Int32), Encode(Number(0), Int32))
  {
    PowerValues();
    NumbersInOrder(U32 - 1, 0, 4);
  }
}

/** The consensus encoding over a universe of types: every value has exactly
    one encoding, and no encoding is a prefix of another. */
module Codec {
  import opened Ordered
  import opened BigEndian

  type Bytes = seq<Byte>

  /** The composed types. A tuple is a chain of pairs ending in `Unit`, a set of
      keys a map from keys to `Unit`: both encode to the same bytes. */
  datatype Type =
    | UInt(width: nat)
    | Int32
    | Bool
    | Unit
    | Text
    | Pair(first: Type, second: Type)
    | OptionOf(some: Type)
    | ResultOf(good: Type, bad: Type)
    | VecOf(item: Type)
    | ArrayOf(item: Type, length: nat)
    | MapOf(key: Type, value: Type)

  datatype Datum =
    | Number(n: int)
    | Flag(b: bool)
    | Nothing
    | Letters(utf8: Bytes)
    | Both(fst: Datum, snd: Datum)
    | Absent
    | Present(v: Datum)
    | Good(v: Datum)
    | Bad(v: Datum)
    | Items(items: seq<Datum>)
    | Table(rows: seq<Row>)

  datatype Row = Row(key: Datum, value: Datum)

  const U32: nat := 0x1_0000_0000

  // ----- the order of keys -----

  /** The order the program's key types are compared by. */
  predicate Less(a: Datum, b: Datum) {
    match (a, b)
    case (Number(m), Number(n)) => m < n
    case (Flag(x), Flag(y)) => !x && y
    case (Letters(x), Letters(y)) => LexLess(x, y)
    case (Both(p, q), Both(r, s)) => Less(p, r) || (p == r && Less(q, s))
    case (Absent, Present(_)) => true
    case (Present(x), Present(y)) => Less(x, y)
    case (Good(_), Bad(_)) => true
    case (Good(x), Good(y)) => Less(x, y)
    case (Bad(x), Bad(y)) => Less(x, y)
    case (Items(xs), Items(ys)) => LessItems(xs, ys)
    case (Table(xs), Table(ys)) => LessRows(xs, ys)
    case _ => false
  }

  predicate LessItems(a: seq<Datum>, b: seq<Datum>) {
    if b == [] then false
    else if a == [] then true
    else Less(a[0], b[0]) || (a[0] == b[0] && LessItems(a[1..], b[1..]))
  }

  predicate LessRows(a: seq<Row>, b: seq<Row>) {
    if b == [] then false
    else if a == [] then true
    else LessRow(a[0], b[0]) || (a[0] == b[0] && LessRows(a[1..], b[1..]))
  }

  predicate LessRow(a: Row, b: Row) {
    Less(a.key, b.key) || (a.key == b.key && Less(a.value, b.value))
  }

  predicate LexLess(a: Bytes, b: Bytes) {
    if b == [] then false
    else if a == [] then true
    else a[0] < b[0] || (a[0] == b[0] && LexLess(a[1..], b[1..]))
  }

  // ----- UTF-8 -----

  /** Well-formed UTF-8, section 4 of RFC 3629. */
  predicate Utf8(s: Bytes)
    decreases |s|
  {
    s == [] || (CharLength(s) > 0 && Utf8(s[CharLength(s)..]))
  }

  /** The bytes of the character a string starts with; 0 if it starts with none. */
  function CharLength(s: Bytes): (n: nat)
    ensures n <= |s|
  {
    if s == [] then 0
    else if s[0] < 0x80 then 1
    else if 0xC2 <= s[0] < 0xE0 then if Tails(s, 2) then 2 else 0
    else if 0xE0 <= s[0] < 0xF0 then if Tails(s, 3) && Shortest(s[0], s[1]) then 3 else 0
    else if 0xF0 <= s[0] < 0xF5 then if Tails(s, 4) && Shortest(s[0], s[1]) then 4 else 0
    else 0
  }

  predicate Tails(s: Bytes, n: nat) {
    |s| >= n && forall i :: 0 < i < n ==> 0x80 <= s[i] < 0xC0
  }

  /** Neither longer than needed, nor a surrogate, nor beyond the last code point. */
  predicate Shortest(first: Byte, second: Byte) {
    && (first == 0xE0 ==> second >= 0xA0) && (first == 0xED ==> second < 0xA0)
    && (first == 0xF0 ==> second >= 0x90) && (first == 0xF4 ==> second < 0x90)
  }

  // ----- values of a type -----

  predicate IsOf(v: Datum, t: Type)
    decreases t, 1
  {
    match t
    case UInt(width) => v.Number? && 0 <= v.n < Power(width)
    case Int32 => v.Number? && -0x8000_0000 <= v.n < 0x8000_0000
    case Bool => v.Flag?
    case Unit => v.Nothing?
    case Text => v.Letters? && |v.utf8| < U32 && Utf8(v.utf8)
    case Pair(a, b) => v.Both? && IsOf(v.fst, a) && IsOf(v.snd, b)
    case OptionOf(a) => v.Absent? || (v.Present? && IsOf(v.v, a))
    case ResultOf(a, b) => (v.Good? && IsOf(v.v, a)) || (v.Bad? && IsOf(v.v, b))
    case VecOf(a) => v.Items? && |v.items| < U32 && AllOf(v.items, a)
    case ArrayOf(a, n) => v.Items? && |v.items| == n && AllOf(v.items, a)
    case MapOf(k, w) => v.Table? && |v.rows| < U32 && AllRows(v.rows, None, t)
  }

  predicate AllOf(items: seq<Datum>, t: Type)
    decreases t, 2, |items|
  {
    items == [] || (IsOf(items[0], t) && AllOf(items[1..], t))
  }

  /** Rows of the right types, keys strictly ascending from `prev` on. */
  predicate AllRows(rows: seq<Row>, prev: Option<Datum>, t: Type)
    requires t.MapOf?
    decreases t, 0, |rows|
  {
    rows == [] ||
    (IsOf(rows[0].key, t.key) && IsOf(rows[0].value, t.value) && After(prev, rows[0].key) &&
     AllRows(rows[1..], Some(rows[0].key), t))
  }

  predicate After(prev: Option<Datum>, key: Datum) {
    prev.None? || Less(prev.value, key)
  }

  // ----- encoding -----

  function Prefix(length: nat): Bytes {
    ToBytes(length, 4)
  }

  /** Two's complement in 32 bits. */
  function Unsigned(n: int): nat
    requires -0x8000_0000 <= n < 0x8000_0000
  {
    if n < 0 then n + U32 else n
  }

  function Signed(n: nat): int {
    if n >= 0x8000_0000 then n - U32 else n
  }

  function Encode(v: Datum, t: Type): Bytes
    requires IsOf(v, t)
    decreases t, 1
  {
    match t
    case UInt(width) => ToBytes(v.n, width)
    case Int32 => ToBytes(Unsigned(v.n), 4)
    case Bool => [if v.b then 1 else 0]
    case Unit => []
    case Text => Prefix(|v.utf8|) + v.utf8
    case Pair(a, b) => Encode(v.fst, a) + Encode(v.snd, b)
    case OptionOf(a) => if v.Absent? then [0] else [1] + Encode(v.v, a)
    case ResultOf(a, b) => if v.Good? then [1] + Encode(v.v, a) else [0] + Encode(v.v, b)
    case VecOf(a) => Prefix(|v.items|) + EncodeItems(v.items, a)
    case ArrayOf(a, _) => EncodeItems(v.items, a)
    case MapOf(_, _) => Prefix(|v.rows|) + EncodeRows(v.rows, None, t)
  }

  function EncodeItems(items: seq<Datum>, t: Type): Bytes
    requires AllOf(items, t)
    decreases t, 2, |items|
  {
    if items == [] then [] else Encode(items[0], t) + EncodeItems(items[1..], t)
  }

  function EncodeRows(rows: seq<Row>, ghost prev: Option<Datum>, t: Type): Bytes
    requires t.MapOf? && AllRows(rows, prev, t)
    decreases t, 0, |rows|
  {
    if rows == [] then [] else
      Encode(rows[0].key, t.key) + Encode(rows[0].value, t.value) + EncodeRows(rows[1..], Some(rows[0].key), t)
  }

  // ----- decoding -----

  /** The input ends early, or is not what any value encodes to. */
  datatype Error = Ended | Invalid

  datatype Result<+T> = Ok(value: T) | Err(error: Error) {
    predicate IsFailure() { Err? }

    function PropagateFailure<U>(): Result<U>
      requires Err?
    {
      Err(error)
    }

    function Extract(): T
      requires Ok?
    {
      value
    }
  }

  /** A decoded value and the bytes after it. */
  type Decoded = Result<(Datum, Bytes)>

  function ReadBytes(bytes: Bytes, n: nat): Result<(Bytes, Bytes)> {
    if |bytes| < n then Err(Ended) else Ok((bytes[..n], bytes[n..]))
  }

  function ReadNumber(bytes: Bytes, width: nat): (r: Result<(nat, Bytes)>)
    ensures r.Ok? ==> r.value.0 < Power(width)
  {
    var (taken, rest) :- ReadBytes(bytes, width);
    ValueBound(taken);
    Ok((Value(taken), rest))
  }

  function Decode(bytes: Bytes, t: Type): Decoded
    decreases t, 1
  {
    match t
    case UInt(width) =>
      var (n, rest) :- ReadNumber(bytes, width);
      Ok((Number(n), rest))
    case Int32 =>
      var (n, rest) :- ReadNumber(bytes, 4);
      Ok((Number(Signed(n)), rest))
    case Bool =>
      var (n, rest) :- ReadNumber(bytes, 1);
      if n == 0 then Ok((Flag(false), rest)) else if n == 1 then Ok((Flag(true), rest)) else Err(Invalid)
    case Unit => Ok((Nothing, bytes))
    case Text =>
      var (n, inner) :- ReadNumber(bytes, 4);
      var (taken, rest) :- ReadBytes(inner, n);
      if Utf8(taken) then Ok((Letters(taken), rest)) else Err(Invalid)
    case Pair(a, b) =>
      var (first, middle) :- Decode(bytes, a);
      var (second, rest) :- Decode(middle, b);
      Ok((Both(first, second), rest))
    case OptionOf(a) =>
      var (n, inner) :- ReadNumber(bytes, 1);
      if n == 0 then Ok((Absent, inner))
      else if n == 1 then
        var (v, rest) :- Decode(inner, a);
        Ok((Present(v), rest))
      else Err(Invalid)
    case ResultOf(a, b) =>
      var (n, inner) :- ReadNumber(bytes, 1);
      if n == 0 then
        var (v, rest) :- Decode(inner, b);
        Ok((Bad(v), rest))
      else if n == 1 then
        var (v, rest) :- Decode(inner, a);
        Ok((Good(v), rest))
      else Err(Invalid)
    case VecOf(a) =>
      var (n, inner) :- ReadNumber(bytes, 4);
      var (items, rest) :- DecodeItems(inner, n, a);
      Ok((Items(items), rest))
    case ArrayOf(a, n) =>
      var (items, rest) :- DecodeItems(bytes, n, a);
      Ok((Items(items), rest))
    case MapOf(_, _) =>
      var (n, inner) :- ReadNumber(bytes, 4);
      var (rows, rest) :- DecodeRows(inner, n, None, t);
      Ok((Table(rows), rest))
  }

  function DecodeItems(bytes: Bytes, n: nat, t: Type): Result<(seq<Datum>, Bytes)>
    decreases t, 2, n
  {
    if n == 0 then Ok(([], bytes)) else
      var (v, more) :- Decode(bytes, t);
      var (items, rest) :- DecodeItems(more, n - 1, t);
      Ok(([v] + items, rest))
  }

  function DecodeRows(bytes: Bytes, n: nat, prev: Option<Datum>, t: Type): Result<(seq<Row>, Bytes)>
    requires t.MapOf?
    decreases t, 0, n
  {
    if n == 0 then Ok(([], bytes)) else
      var (key, middle) :- Decode(bytes, t.key);
      if !After(prev, key) then Err(Invalid) else
        var (value, more) :- Decode(middle, t.value);
        var (rows, rest) :- DecodeRows(more, n - 1, Some(key), t);
        Ok(([Row(key, value)] + rows, rest))
  }

  /** A whole buffer, nothing left over. */
  function DecodeAll(bytes: Bytes, t: Type): Result<Datum> {
    var (v, rest) :- Decode(bytes, t);
    if rest == [] then Ok(v) else Err(Invalid)
  }

  // ----- round trip -----

  lemma PowerValues()
    ensures Power(1) == 256 && Power(4) == U32
  {
    assert Power(2) == 256 * Power(1);
    assert Power(3) == 256 * Power(2);
  }

  lemma ReadBack(n: nat, width: nat, rest: Bytes)
    requires n < Power(width)
    ensures ReadNumber(ToBytes(n, width) + rest, width) == Ok((n, rest))
  {
    ValueOfBytes(n, width);
    assert (ToBytes(n, width) + rest)[..width] == ToBytes(n, width);
    assert (ToBytes(n, width) + rest)[width..] == rest;
  }

  lemma ReadTag(tag: Byte, rest: Bytes)
    ensures ReadNumber([tag] + rest, 1) == Ok((tag as nat, rest))
  {
    PowerValues();
    assert ToBytes(tag, 1) == ToBytes(tag / 256, 0) + [tag % 256] == [tag];
    ReadBack(tag, 1, rest);
  }

  /** Decoding what was encoded, whatever follows, yields the value and exactly
      what follows. */
  lemma {:induction false} RoundTrip(v: Datum, t: Type, rest: Bytes)
    requires IsOf(v, t)
    ensures Decode(Encode(v, t) + rest, t) == Ok((v, rest))
    decreases t, 1
  {
    PowerValues();
    match t
    case UInt(width) => ReadBack(v.n, width, rest);
    case Int32 => ReadBack(Unsigned(v.n), 4, rest);
    case Bool => ReadTag(if v.b then 1 else 0, rest);
    case Unit => assert [] + rest == rest;
    case Text =>
      ReadCounted(|v.utf8|, v.utf8, rest);
      assert (v.utf8 + rest)[..|v.utf8|] == v.utf8 && (v.utf8 + rest)[|v.utf8|..] == rest;
    case Pair(a, b) => RoundTripPair(v, a, b, rest);
    case OptionOf(a) =>
      if v.Absent? {
        ReadTag(0, rest);
      } else {
        RoundTrip(v.v, a, rest);
        ReadTagged(1, Encode(v.v, a), rest);
      }
    case ResultOf(a, b) =>
      if v.Good? {
        RoundTrip(v.v, a, rest);
        ReadTagged(1, Encode(v.v, a), rest);
      } else {
        RoundTrip(v.v, b, rest);
        ReadTagged(0, Encode(v.v, b), rest);
      }
    case VecOf(a) =>
      RoundTripItems(v.items, a, rest);
      ReadCounted(|v.items|, EncodeItems(v.items, a), rest);
    case ArrayOf(a, n) => RoundTripItems(v.items, a, rest);
    case MapOf(_, _) =>
      RoundTripRows(v.rows, None, t, rest);
      ReadCounted(|v.rows|, EncodeRows(v.rows, None, t), rest);
  }

  lemma ReadTagged(tag: Byte, body: Bytes, rest: Bytes)
    ensures ReadNumber(([tag] + body) + rest, 1) == Ok((tag as nat, body + rest))
  {
    assert ([tag] + body) + rest == [tag] + (body + rest);
    ReadTag(tag, body + rest);
  }

  lemma ReadCounted(n: nat, body: Bytes, rest: Bytes)
    requires n < U32
    ensures ReadNumber((Prefix(n) + body) + rest, 4) == Ok((n, body + rest))
  {
    PowerValues();
    assert (Prefix(n) + body) + rest == Prefix(n) + (body + rest);
    ReadBack(n, 4, body + rest);
  }

  lemma RoundTripPair(v: Datum, a: Type, b: Type, rest: Bytes)
    requires IsOf(v, Pair(a, b))
    ensures Decode(Encode(v, Pair(a, b)) + rest, Pair(a, b)) == Ok((v, rest))
    decreases Pair(a, b), 0
  {
    var first, second := Encode(v.fst, a), Encode(v.snd, b);
    assert (first + second) + rest == first + (second + rest);
    RoundTrip(v.fst, a, second + rest);
    RoundTrip(v.snd, b, rest);
  }

  lemma {:induction false} RoundTripItems(items: seq<Datum>, t: Type, rest: Bytes)
    requires AllOf(items, t)
    ensures DecodeItems(EncodeItems(items, t) + rest, |items|, t) == Ok((items, rest))
    decreases t, 2, |items|
  {
    if items == [] {
      assert [] + rest == rest;
    } else {
      var first, others := Encode(items[0], t), EncodeItems(items[1..], t);
      assert (first + others) + rest == first + (others + rest);
      RoundTrip(items[0], t, others + rest);
      RoundTripItems(items[1..], t, rest);
      assert items == [items[0]] + items[1..];
    }
  }

  lemma {:induction false} RoundTripRows(rows: seq<Row>, prev: Option<Datum>, t: Type, rest: Bytes)
    requires t.MapOf? && AllRows(rows, prev, t)
    ensures DecodeRows(EncodeRows(rows, prev, t) + rest, |rows|, prev, t) == Ok((rows, rest))
    decreases t, 0, |rows|
  {
    if rows == [] {
      assert [] + rest == rest;
    } else {
      var row := rows[0];
      var key, value := Encode(row.key, t.key), Encode(row.value, t.value);
      var others := EncodeRows(rows[1..], Some(row.key), t);
      assert (key + value + others) + rest == key + (value + (others + rest));
      RoundTrip(row.key, t.key, value + (others + rest));
      RoundTrip(row.value, t.value, others + rest);
      RoundTripRows(rows[1..], Some(row.key), t, rest);
      assert rows == [row] + rows[1..];
    }
  }

  // ----- canonicity -----

  lemma ReadIs(bytes: Bytes, width: nat)
    requires ReadNumber(bytes, width).Ok?
    ensures var (n, rest) := ReadNumber(bytes, width).value;
      n < Power(width) && bytes == ToBytes(n, width) + rest
  {
    BytesOfValue(bytes[..width]);
  }

  lemma TagIs(bytes: Bytes)
    requires ReadNumber(bytes, 1).Ok?
    ensures var (n, rest) := ReadNumber(bytes, 1).value; n < 256 && bytes == [n as Byte] + rest
  {
    PowerValues();
    ReadIs(bytes, 1);
    var n := ReadNumber(bytes, 1).value.0;
    assert ToBytes(n, 1) == ToBytes(n / 256, 0) + [n % 256] == [n as Byte];
  }

  /** Bytes that decode to a value of a type are its encoding and nothing else. */
  lemma {:induction false} Canonical(bytes: Bytes, t: Type)
    requires Decode(bytes, t).Ok?
    ensures var (v, rest) := Decode(bytes, t).value; IsOf(v, t) && bytes == Encode(v, t) + rest
    decreases t, 1
  {
    PowerValues();
    match t
    case UInt(width) => ReadIs(bytes, width);
    case Int32 =>
      ReadIs(bytes, 4);
      SignedBack(ReadNumber(bytes, 4).value.0);
    case Bool => TagIs(bytes);
    case Unit => assert bytes == [] + bytes;
    case Text =>
      ReadIs(bytes, 4);
      var (n, inner) := ReadNumber(bytes, 4).value;
      Regroup(Prefix(n), inner[..n], inner[n..]);
    case Pair(a, b) =>
      Canonical(bytes, a);
      Canonical(Decode(bytes, a).value.1, b);
      Regroup(Encode(Decode(bytes, a).value.0, a), Encode(Decode(Decode(bytes, a).value.1, b).value.0, b),
              Decode(Decode(bytes, a).value.1, b).value.1);
    case OptionOf(a) =>
      TagIs(bytes);
      if ReadNumber(bytes, 1).value.0 == 1 {
        CanonicalTagged(bytes, a);
      }
    case ResultOf(a, b) =>
      TagIs(bytes);
      CanonicalTagged(bytes, if ReadNumber(bytes, 1).value.0 == 1 then a else b);
    case VecOf(a) =>
      ReadIs(bytes, 4);
      var (n, inner) := ReadNumber(bytes, 4).value;
      CanonicalItems(inner, n, a);
      Regroup(Prefix(n), EncodeItems(DecodeItems(inner, n, a).value.0, a), DecodeItems(inner, n, a).value.1);
    case ArrayOf(a, n) => CanonicalItems(bytes, n, a);
    case MapOf(_, _) =>
      ReadIs(bytes, 4);
      var (n, inner) := ReadNumber(bytes, 4).value;
      CanonicalRows(inner, n, None, t);
      Regroup(Prefix(n), EncodeRows(DecodeRows(inner, n, None, t).value.0, None, t),
              DecodeRows(inner, n, None, t).value.1);
  }

  lemma Regroup(a: Bytes, b: Bytes, c: Bytes)
    ensures (a + b) + c == a + (b + c)
  {
  }

  lemma SignedBack(n: nat)
    requires n < U32
    ensures -0x8000_0000 <= Signed(n) < 0x8000_0000 && Unsigned(Signed(n)) == n
  {
  }

  lemma CanonicalTagged(bytes: Bytes, t: Type)
    requires ReadNumber(bytes, 1).Ok? && Decode(ReadNumber(bytes, 1).value.1, t).Ok?
    ensures var (n, inner) := ReadNumber(bytes, 1).value;
      var (v, rest) := Decode(inner, t).value;
      n < 256 && IsOf(v, t) && bytes == ([n as Byte] + Encode(v, t)) + rest
    decreases t, 2
  {
    TagIs(bytes);
    var (n, inner) := ReadNumber(bytes, 1).value;
    Canonical(inner, t);
    Regroup([n as Byte], Encode(Decode(inner, t).value.0, t), Decode(inner, t).value.1);
  }

  lemma {:induction false} CanonicalItems(bytes: Bytes, n: nat, t: Type)
    requires DecodeItems(bytes, n, t).Ok?
    ensures var (items, rest) := DecodeItems(bytes, n, t).value;
      |items| == n && AllOf(items, t) && bytes == EncodeItems(items, t) + rest
    decreases t, 2, n
  {
    if n == 0 {
      assert bytes == [] + bytes;
    } else {
      Canonical(bytes, t);
      var (v, more) := Decode(bytes, t).value;
      CanonicalItems(more, n - 1, t);
      var (items, rest) := DecodeItems(more, n - 1, t).value;
      assert ([v] + items)[1..] == items;
      Regroup(Encode(v, t), EncodeItems(items, t), rest);
    }
  }

  lemma {:induction false} CanonicalRows(bytes: Bytes, n: nat, prev: Option<Datum>, t: Type)
    requires t.MapOf? && DecodeRows(bytes, n, prev, t).Ok?
    ensures var (rows, rest) := DecodeRows(bytes, n, prev, t).value;
      |rows| == n && AllRows(rows, prev, t) && bytes == EncodeRows(rows, prev, t) + rest
    decreases t, 0, n
  {
    if n == 0 {
      assert bytes == [] + bytes;
    } else {
      Canonical(bytes, t.key);
      var (key, middle) := Decode(bytes, t.key).value;
      Canonical(middle, t.value);
      var (value, more) := Decode(middle, t.value).value;
      CanonicalRows(more, n - 1, Some(key), t);
      var (rows, rest) := DecodeRows(more, n - 1, Some(key), t).value;
      var row := Row(key, value);
      assert ([row] + rows)[1..] == rows;
      var k, v, others := Encode(key, t.key), Encode(value, t.value), EncodeRows(rows, Some(key), t);
      assert k + (v + (others + rest)) == (k + v + others) + rest;
    }
  }

  /** Whole buffers: exactly the encodings decode, each to its value. */
  lemma DecodesExactlyEncodings(bytes: Bytes, t: Type, v: Datum)
    ensures DecodeAll(bytes, t) == Ok(v) <==> IsOf(v, t) && bytes == Encode(v, t)
  {
    if DecodeAll(bytes, t) == Ok(v) {
      Canonical(bytes, t);
      assert Encode(v, t) + [] == Encode(v, t);
    }
    if IsOf(v, t) && bytes == Encode(v, t) {
      RoundTrip(v, t, []);
      assert bytes + [] == bytes;
    }
  }

  /** Encodings are prefix-free and injective at once: if one starts another,
      the values are the same. */
  lemma PrefixFree(v: Datum, w: Datum, t: Type)
    requires IsOf(v, t) && IsOf(w, t) && Encode(v, t) <= Encode(w, t)
    ensures v == w
  {
    var more := Encode(w, t)[|Encode(v, t)|..];
    assert Encode(w, t) == Encode(v, t) + more;
    RoundTrip(v, t, more);
    RoundTrip(w, t, []);
    assert Encode(w, t) + [] == Encode(w, t);
  }

  function ByteItems(s: Bytes): seq<Datum> {
    if s == [] then [] else [Number(s[0])] + ByteItems(s[1..])
  }

  /** Byte vectors are written and read all at once: the same as byte by byte. */
  lemma BytesAtOnce(s: Bytes, n: nat)
    ensures |ByteItems(s)| == |s| && AllOf(ByteItems(s), UInt(1)) && EncodeItems(ByteItems(s), UInt(1)) == s
    ensures DecodeItems(s, n, UInt(1)) == if |s| < n then Err(Ended) else Ok((ByteItems(s[..n]), s[n..]))
  {
    WrittenAtOnce(s);
    ReadAtOnce(s, n);
  }

  lemma {:induction false} WrittenAtOnce(s: Bytes)
    ensures |ByteItems(s)| == |s| && AllOf(ByteItems(s), UInt(1)) && EncodeItems(ByteItems(s), UInt(1)) == s
    decreases |s|
  {
    if s != [] {
      PowerValues();
      WrittenAtOnce(s[1..]);
      var items := ByteItems(s);
      assert items[0] == Number(s[0]) && items[1..] == ByteItems(s[1..]);
      assert ToBytes(s[0], 1) == ToBytes(s[0] / 256, 0) + [s[0] % 256] == [s[0]];
      assert s == [s[0]] + s[1..];
    }
  }

  lemma {:induction false} ReadAtOnce(s: Bytes, n: nat)
    ensures DecodeItems(s, n, UInt(1)) == if |s| < n then Err(Ended) else Ok((ByteItems(s[..n]), s[n..]))
    decreases n
  {
    if n == 0 {
      assert s[0..] == s && s[..0] == [];
    } else if s != [] {
      ReadAtOnce(s[1..], n - 1);
      assert s[..1] == [s[0]] && Value([s[0]]) == Value([]) * 256 + s[0];
      if n <= |s| {
        assert s[..n][1..] == s[1..][..n - 1] && s[1..][n - 1..] == s[n..];
      }
    }
  }

  /** A string's bytes are written as a byte vector's. */
  lemma TextIsBytes(v: Datum)
    requires IsOf(v, Text)
    ensures IsOf(Items(ByteItems(v.utf8)), VecOf(UInt(1)))
    ensures Encode(v, Text) == Encode(Items(ByteItems(v.utf8)), VecOf(UInt(1)))
  {
    WrittenAtOnce(v.utf8);
  }
}

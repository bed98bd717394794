/** The bytes on the wire, type by type. */
module WireFormat {
  import opened Ordered
  import opened BigEndian
  import opened Codec

  /** Unsigned integers are their big-endian bytes. */
  lemma UnsignedOnWire(n: int, width: nat)
    requires IsOf(Number(n), UInt(width))
    ensures |Encode(Number(n), UInt(width))| == width && Value(Encode(Number(n), UInt(width))) == n
  {
    ValueOfBytes(n, width);
  }

  /** Signed ones are four bytes in two's complement. */
  lemma SignedOnWire(n: int)
    requires IsOf(Number(n), Int32)
    ensures |Encode(Number(n), Int32)| == 4
    ensures Value(Encode(Number(n), Int32)) == if n < 0 then n + 0x1_0000_0000 else n
  {
    PowerValues();
    ValueOfBytes(Unsigned(n), 4);
  }

  /** Flags, options and results lead with a byte: 1 for true, for a value that
      is there, and for success, 0 for the others. */
  lemma TagsOnWire(v: Datum, good: Type, bad: Type)
    ensures Encode(Flag(false), Bool) == [0] && Encode(Flag(true), Bool) == [1]
    ensures Encode(Absent, OptionOf(good)) == [0]
    ensures IsOf(v, good) ==> Encode(Present(v), OptionOf(good)) == [1] + Encode(v, good)
    ensures IsOf(v, good) ==> Encode(Good(v), ResultOf(good, bad)) == [1] + Encode(v, good)
    ensures IsOf(v, bad) ==> Encode(Bad(v), ResultOf(good, bad)) == [0] + Encode(v, bad)
  {
  }

  /** The items one after the other. */
  function Joined(items: seq<Datum>, t: Type): Bytes
    requires forall v :: v in items ==> IsOf(v, t)
  {
    if items == [] then [] else
      var last := items[|items| - 1];
      Joined(items[..|items| - 1], t) + Encode(last, t)
  }

  lemma {:induction false} AllAre(items: seq<Datum>, t: Type)
    requires AllOf(items, t)
    ensures forall v :: v in items ==> IsOf(v, t)
    decreases |items|
  {
    if items != [] {
      AllAre(items[1..], t);
      assert items == [items[0]] + items[1..];
    }
  }

  lemma {:induction false} JoinedFront(items: seq<Datum>, t: Type)
    requires items != [] && forall v :: v in items ==> IsOf(v, t)
    ensures Joined(items, t) == Encode(items[0], t) + Joined(items[1..], t)
    decreases |items|
  {
    var n := |items| - 1;
    if n > 0 {
      JoinedFront(items[..n], t);
      assert items[..n][1..] == items[1..][..n - 1] && items[1..][n - 1] == items[n];
      Regroup(Encode(items[0], t), Joined(items[1..][..n - 1], t), Encode(items[n], t));
    }
  }

  lemma {:induction false} ItemsJoin(items: seq<Datum>, t: Type)
    requires AllOf(items, t)
    ensures forall v :: v in items ==> IsOf(v, t)
    ensures EncodeItems(items, t) == Joined(items, t)
    decreases |items|
  {
    AllAre(items, t);
    if items != [] {
      ItemsJoin(items[1..], t);
      JoinedFront(items, t);
    }
  }

  /** A vector is its count in four bytes and its items in order; an array its
      items alone. */
  lemma ItemsOnWire(items: seq<Datum>, t: Type, n: nat)
    requires AllOf(items, t)
    ensures forall v :: v in items ==> IsOf(v, t)
    ensures |items| < U32 ==>
      Value(Encode(Items(items), VecOf(t))[..4]) == |items| && Encode(Items(items), VecOf(t))[4..] == Joined(items, t)
    ensures Encode(Items(items), ArrayOf(t, |items|)) == Joined(items, t)
  {
    ItemsJoin(items, t);
    if |items| < U32 {
      CountOnWire(|items|, EncodeItems(items, t));
    }
  }

  lemma CountOnWire(n: nat, body: Bytes)
    requires n < U32
    ensures |Prefix(n) + body| >= 4 && Value((Prefix(n) + body)[..4]) == n && (Prefix(n) + body)[4..] == body
  {
    PowerValues();
    ValueOfBytes(n, 4);
    assert (Prefix(n) + body)[..4] == Prefix(n);
  }

  /** A string is its byte count in four bytes and its bytes. */
  lemma TextOnWire(utf8: Bytes)
    requires IsOf(Letters(utf8), Text)
    ensures Value(Encode(Letters(utf8), Text)[..4]) == |utf8| && Encode(Letters(utf8), Text)[4..] == utf8
  {
    CountOnWire(|utf8|, utf8);
  }

  /** The rows one after the other, each key ahead of its value. */
  function JoinedRows(rows: seq<Row>, t: Type): Bytes
    requires t.MapOf? && forall r :: r in rows ==> IsOf(r.key, t.key) && IsOf(r.value, t.value)
  {
    if rows == [] then [] else
      var last := rows[|rows| - 1];
      JoinedRows(rows[..|rows| - 1], t) + (Encode(last.key, t.key) + Encode(last.value, t.value))
  }

  lemma {:induction false} RowsAre(rows: seq<Row>, prev: Option<Datum>, t: Type)
    requires t.MapOf? && AllRows(rows, prev, t)
    ensures forall r :: r in rows ==> IsOf(r.key, t.key) && IsOf(r.value, t.value)
    decreases |rows|
  {
    if rows != [] {
      RowsAre(rows[1..], Some(rows[0].key), t);
      assert rows == [rows[0]] + rows[1..];
    }
  }

  lemma {:induction false} JoinedRowsFront(rows: seq<Row>, t: Type)
    requires t.MapOf? && rows != [] && forall r :: r in rows ==> IsOf(r.key, t.key) && IsOf(r.value, t.value)
    ensures JoinedRows(rows, t) ==
      (Encode(rows[0].key, t.key) + Encode(rows[0].value, t.value)) + JoinedRows(rows[1..], t)
    decreases |rows|
  {
    var n := |rows| - 1;
    if n > 0 {
      JoinedRowsFront(rows[..n], t);
      assert rows[..n][1..] == rows[1..][..n - 1] && rows[1..][n - 1] == rows[n];
      Regroup(Encode(rows[0].key, t.key) + Encode(rows[0].value, t.value), JoinedRows(rows[1..][..n - 1], t),
              Encode(rows[n].key, t.key) + Encode(rows[n].value, t.value));
    }
  }

  lemma {:induction false} RowsJoin(rows: seq<Row>, prev: Option<Datum>, t: Type)
    requires t.MapOf? && AllRows(rows, prev, t)
    ensures forall r :: r in rows ==> IsOf(r.key, t.key) && IsOf(r.value, t.value)
    ensures EncodeRows(rows, prev, t) == JoinedRows(rows, t)
    decreases |rows|
  {
    RowsAre(rows, prev, t);
    if rows != [] {
      RowsJoin(rows[1..], Some(rows[0].key), t);
      JoinedRowsFront(rows, t);
    }
  }

  /** A map is its count in four bytes and its rows in key order, each key ahead
      of its value. */
  lemma MapOnWire(rows: seq<Row>, t: Type)
    requires t.MapOf? && IsOf(Table(rows), t)
    ensures forall r :: r in rows ==> IsOf(r.key, t.key) && IsOf(r.value, t.value)
    ensures Value(Encode(Table(rows), t)[..4]) == |rows| && Encode(Table(rows), t)[4..] == JoinedRows(rows, t)
  {
    RowsJoin(rows, None, t);
    CountOnWire(|rows|, EncodeRows(rows, None, t));
  }
}

/** Encoding to a growing writer and decoding from an advancing reader. */
module Streams {
  import opened Ordered
  import opened BigEndian
  import opened Codec
  import opened KeyOrder

  class Writer {
    var bytes: Bytes

    constructor ()
      ensures bytes == []
    {
      bytes := [];
    }

    method WriteAll(more: Bytes)
      modifies this
      ensures bytes == old(bytes) + more
    {
      bytes := bytes + more;
    }

    /** Append the encoding of `v`. */
    method Write(v: Datum, t: Type)
      requires IsOf(v, t)
      modifies this
      ensures bytes == old(bytes) + Encode(v, t)
      decreases t, 1
    {
      match t
      case UInt(width) => WriteAll(ToBytes(v.n, width));
      case Int32 => WriteAll(ToBytes(Unsigned(v.n), 4));
      case Bool => WriteAll([if v.b then 1 else 0]);
      case Unit =>
      case Text =>
        WriteAll(Prefix(|v.utf8|));
        WriteAll(v.utf8);
        Regroup(old(bytes), Prefix(|v.utf8|), v.utf8);
      case Pair(a, b) =>
        Write(v.fst, a);
        Write(v.snd, b);
        Regroup(old(bytes), Encode(v.fst, a), Encode(v.snd, b));
      case OptionOf(a) =>
        WriteAll([if v.Absent? then 0 else 1]);
        if v.Present? {
          Write(v.v, a);
          Regroup(old(bytes), [1], Encode(v.v, a));
        }
      case ResultOf(a, b) =>
        WriteAll([if v.Good? then 1 else 0]);
        if v.Good? {
          Write(v.v, a);
          Regroup(old(bytes), [1], Encode(v.v, a));
        } else {
          Write(v.v, b);
          Regroup(old(bytes), [0], Encode(v.v, b));
        }
      case VecOf(a) =>
        WriteAll(Prefix(|v.items|));
        WriteItems(v.items, a);
        Regroup(old(bytes), Prefix(|v.items|), EncodeItems(v.items, a));
      case ArrayOf(a, _) => WriteItems(v.items, a);
      case MapOf(_, _) =>
        WriteAll(Prefix(|v.rows|));
        WriteRows(v.rows, t);
        Regroup(old(bytes), Prefix(|v.rows|), EncodeRows(v.rows, None, t));
    }

    method WriteItems(items: seq<Datum>, t: Type)
      requires AllOf(items, t)
      modifies this
      ensures bytes == old(bytes) + EncodeItems(items, t)
      decreases t, 2
    {
      assert items[0..] == items;
      for i := 0 to |items|
        invariant AllOf(items[i..], t)
        invariant bytes + EncodeItems(items[i..], t) == old(bytes) + EncodeItems(items, t)
      {
        assert items[i..][0] == items[i] && items[i..][1..] == items[i + 1..];
        ghost var before := bytes;
        Write(items[i], t);
        Regroup(before, Encode(items[i], t), EncodeItems(items[i + 1..], t));
      }
    }

    method WriteRows(rows: seq<Row>, t: Type)
      requires t.MapOf? && AllRows(rows, None, t)
      modifies this
      ensures bytes == old(bytes) + EncodeRows(rows, None, t)
      decreases t, 0
    {
      assert rows[0..] == rows;
      ghost var prev: Option<Datum> := None;
      for i := 0 to |rows|
        invariant AllRows(rows[i..], prev, t)
        invariant bytes + EncodeRows(rows[i..], prev, t) == old(bytes) + EncodeRows(rows, None, t)
      {
        assert rows[i..][0] == rows[i] && rows[i..][1..] == rows[i + 1..];
        ghost var before, row := bytes, rows[i];
        Write(rows[i].key, t.key);
        Write(rows[i].value, t.value);
        prev := Some(row.key);
        var k, v, rest := Encode(row.key, t.key), Encode(row.value, t.value), EncodeRows(rows[i + 1..], prev, t);
        assert ((before + k) + v) + rest == before + (k + v + rest);
      }
    }
  }

  /** What is decoded first, ahead of the rest. */
  function Ahead<T>(done: seq<T>, r: Result<(seq<T>, Bytes)>): Result<(seq<T>, Bytes)> {
    if r.Err? then r else Ok((done + r.value.0, r.value.1))
  }

  lemma AheadEnds<T>(done: seq<T>, r: Result<(seq<T>, Bytes)>, rest: Bytes)
    ensures Ahead([], r) == r && Ahead(done, Ok(([], rest))) == Ok((done, rest))
  {
    assert done + [] == done;
    if r.Ok? {
      assert [] + r.value.0 == r.value.0;
    }
  }

  lemma AheadMore<T>(done: seq<T>, x: T, r: Result<(seq<T>, Bytes)>)
    ensures Ahead(done + [x], r) == Ahead(done, Ahead([x], r))
  {
    if r.Ok? {
      assert (done + [x]) + r.value.0 == done + ([x] + r.value.0);
    }
  }

  class Reader {
    const data: Bytes
    var pos: nat

    ghost predicate Valid()
      reads this
    {
      pos <= |data|
    }

    function Remaining(): Bytes
      requires Valid()
      reads this
    {
      data[pos..]
    }

    constructor (data: Bytes)
      ensures Valid() && Remaining() == data
    {
      this.data := data;
      pos := 0;
    }

    method ReadExact(n: nat) returns (r: Result<Bytes>)
      requires Valid()
      modifies this
      ensures Valid()
      ensures r.Err? ==> ReadBytes(old(Remaining()), n) == Err(r.error)
      ensures r.Ok? ==> ReadBytes(old(Remaining()), n) == Ok((r.value, Remaining()))
    {
      if |data| - pos < n {
        return Err(Ended);
      }
      r := Ok(data[pos..pos + n]);
      assert data[pos..][..n] == data[pos..pos + n] && data[pos..][n..] == data[pos + n..];
      pos := pos + n;
    }

    method ReadUnsigned(width: nat) returns (r: Result<nat>)
      requires Valid()
      modifies this
      ensures Valid()
      ensures r.Err? ==> ReadNumber(old(Remaining()), width) == Err(r.error)
      ensures r.Ok? ==> ReadNumber(old(Remaining()), width) == Ok((r.value, Remaining()))
    {
      var taken :- ReadExact(width);
      return Ok(Value(taken));
    }

    /** Decode one value, advancing past exactly its bytes, or fail with the
        specified error. */
    method Read(t: Type) returns (r: Result<Datum>)
      requires Valid()
      modifies this
      ensures Valid()
      ensures r.Err? ==> Decode(old(Remaining()), t) == Err(r.error)
      ensures r.Ok? ==> Decode(old(Remaining()), t) == Ok((r.value, Remaining()))
      decreases t, 1
    {
      match t
      case UInt(width) =>
        var n :- ReadUnsigned(width);
        return Ok(Number(n));
      case Int32 =>
        var n :- ReadUnsigned(4);
        return Ok(Number(Signed(n)));
      case Bool =>
        var n :- ReadUnsigned(1);
        return if n == 0 then Ok(Flag(false)) else if n == 1 then Ok(Flag(true)) else Err(Invalid);
      case Unit => return Ok(Nothing);
      case Text =>
        var n :- ReadUnsigned(4);
        var taken :- ReadExact(n);
        return if Utf8(taken) then Ok(Letters(taken)) else Err(Invalid);
      case Pair(a, b) =>
        var first :- Read(a);
        var second :- Read(b);
        return Ok(Both(first, second));
      case OptionOf(a) =>
        var n :- ReadUnsigned(1);
        if n == 0 {
          return Ok(Absent);
        }
        if n != 1 {
          return Err(Invalid);
        }
        var v :- Read(a);
        return Ok(Present(v));
      case ResultOf(a, b) =>
        var n :- ReadUnsigned(1);
        if n == 0 {
          var e :- Read(b);
          return Ok(Bad(e));
        }
        if n != 1 {
          return Err(Invalid);
        }
        var v :- Read(a);
        return Ok(Good(v));
      case VecOf(a) =>
        var n :- ReadUnsigned(4);
        var items :- ReadItems(n, a);
        return Ok(Items(items));
      case ArrayOf(a, n) =>
        var items :- ReadItems(n, a);
        return Ok(Items(items));
      case MapOf(_, _) =>
        var n :- ReadUnsigned(4);
        var rows :- ReadRows(n, t);
        return Ok(Table(rows));
    }

    method ReadItems(n: nat, t: Type) returns (r: Result<seq<Datum>>)
      requires Valid()
      modifies this
      ensures Valid()
      ensures r.Err? ==> DecodeItems(old(Remaining()), n, t) == Err(r.error)
      ensures r.Ok? ==> DecodeItems(old(Remaining()), n, t) == Ok((r.value, Remaining()))
      decreases t, 2
    {
      var items: seq<Datum> := [];
      AheadEnds([], DecodeItems(Remaining(), n, t), []);
      for i := 0 to n
        invariant Valid()
        invariant DecodeItems(old(Remaining()), n, t) == Ahead(items, DecodeItems(Remaining(), n - i, t))
      {
        ghost var before := Remaining();
        var v := Read(t);
        if v.Err? {
          return Err(v.error);
        }
        ghost var rest := DecodeItems(Remaining(), n - i - 1, t);
        assert DecodeItems(before, n - i, t) == Ahead([v.value], rest);
        AheadMore(items, v.value, rest);
        items := items + [v.value];
      }
      AheadEnds(items, Err(Ended), Remaining());
      return Ok(items);
    }

    /** Keys must ascend; the duplicate check after that never fires. */
    method ReadRows(n: nat, t: Type) returns (r: Result<seq<Row>>)
      requires Valid() && t.MapOf?
      modifies this
      ensures Valid()
      ensures r.Err? ==> DecodeRows(old(Remaining()), n, None, t) == Err(r.error)
      ensures r.Ok? ==> DecodeRows(old(Remaining()), n, None, t) == Ok((r.value, Remaining()))
      decreases t, 0
    {
      var rows: seq<Row> := [];
      var keys: set<Datum>, last: Option<Datum> := {}, None;
      AheadEnds([], DecodeRows(Remaining(), n, None, t), []);
      for i := 0 to n
        invariant Valid()
        invariant DecodeRows(old(Remaining()), n, None, t) == Ahead(rows, DecodeRows(Remaining(), n - i, last, t))
        invariant UpTo(keys, last)
      {
        ghost var before := Remaining();
        var key := Read(t.key);
        if key.Err? {
          return Err(key.error);
        }
        if !After(last, key.value) {
          return Err(Invalid);
        }
        NewKey(keys, last, key.value);
        var value := Read(t.value);
        if value.Err? {
          return Err(value.error);
        }
        if key.value in keys {
          assert false;
        }
        ghost var row, rest := Row(key.value, value.value), DecodeRows(Remaining(), n - i - 1, Some(key.value), t);
        RowAhead(before, n - i, last, t);
        AheadMore(rows, row, rest);
        rows := rows + [Row(key.value, value.value)];
        keys, last := keys + {key.value}, Some(key.value);
      }
      AheadEnds(rows, Err(Ended), Remaining());
      return Ok(rows);
    }
  }

  /** The first of the rows, ahead of the rest. */
  lemma RowAhead(bytes: Bytes, n: nat, prev: Option<Datum>, t: Type)
    requires n > 0 && t.MapOf? && Decode(bytes, t.key).Ok? && After(prev, Decode(bytes, t.key).value.0)
    requires Decode(Decode(bytes, t.key).value.1, t.value).Ok?
    ensures var (key, middle) := Decode(bytes, t.key).value;
      var (value, more) := Decode(middle, t.value).value;
      DecodeRows(bytes, n, prev, t) == Ahead([Row(key, value)], DecodeRows(more, n - 1, Some(key), t))
  {
  }

  /** No key is above `last`. */
  ghost predicate UpTo(keys: set<Datum>, last: Option<Datum>) {
    forall k :: k in keys ==> last.Some? && (k == last.value || Less(k, last.value))
  }

  lemma NewKey(keys: set<Datum>, last: Option<Datum>, key: Datum)
    requires After(last, key)
    requires UpTo(keys, last)
    ensures key !in keys && UpTo(keys + {key}, Some(key))
  {
    LessIrreflexive(key);
    forall k | k in keys ensures Less(k, key) {
      if k != last.value {
        LessTransitive(k, last.value, key);
      }
    }
  }

  /** A whole buffer: what is left over after the value makes it an error. */
  method ConsensusDecode(bytes: Bytes, t: Type) returns (r: Result<Datum>)
    ensures r == DecodeAll(bytes, t)
  {
    var reader := new Reader(bytes);
    var v :- reader.Read(t);
    return if reader.pos == |reader.data| then Ok(v) else Err(Invalid);
  }

  method ConsensusEncodeToVec(v: Datum, t: Type) returns (bytes: Bytes)
    requires IsOf(v, t)
    ensures bytes == Encode(v, t)
  {
    var writer := new Writer();
    writer.Write(v, t);
    return writer.bytes;
  }
}

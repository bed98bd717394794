/** Which error a decode ends in: a cut-off encoding ends early, one with bytes
    to spare is invalid. */
module Truncation {
  import opened Ordered
  import opened BigEndian
  import opened Codec

  /** `cut` is the start of `whole` and not all of it. */
  predicate CutOff(cut: Bytes, whole: Bytes) {
    cut <= whole && |cut| < |whole|
  }

  /** A cut through `a + b` is a cut through `a`, or `a` and a cut through `b`. */
  lemma CutThrough(cut: Bytes, a: Bytes, b: Bytes)
    requires CutOff(cut, a + b)
    ensures CutOff(cut, a) || (a <= cut && CutOff(cut[|a|..], b) && cut == a + cut[|a|..])
  {
    if |cut| < |a| {
      assert cut == (a + b)[..|cut|] == a[..|cut|];
    } else {
      assert cut[..|a|] == (a + b)[..|a|] == a;
      assert cut[|a|..] == (a + b)[|a|..|cut|] == b[..|cut| - |a|];
    }
  }

  /** Where a number is cut off, reading it ends early. */
  lemma CutNumber(cut: Bytes, n: nat, width: nat, b: Bytes)
    requires n < Power(width) && CutOff(cut, ToBytes(n, width) + b)
    ensures ReadNumber(cut, width) == Err(Ended) ||
      (ReadNumber(cut, width).Ok? && ReadNumber(cut, width).value.0 == n && CutOff(ReadNumber(cut, width).value.1, b))
  {
    CutThrough(cut, ToBytes(n, width), b);
    if !CutOff(cut, ToBytes(n, width)) {
      ReadBack(n, width, cut[width..]);
    }
  }

  lemma CutTag(cut: Bytes, tag: Byte, b: Bytes)
    requires CutOff(cut, [tag] + b)
    ensures ReadNumber(cut, 1) == Err(Ended) ||
      (ReadNumber(cut, 1).Ok? && ReadNumber(cut, 1).value.0 == tag && CutOff(ReadNumber(cut, 1).value.1, b))
  {
    PowerValues();
    assert ToBytes(tag, 1) == ToBytes(tag / 256, 0) + [tag % 256] == [tag];
    CutNumber(cut, tag, 1, b);
  }

  /** A cut-off encoding ends early, wherever it is cut. */
  lemma {:induction false} CutEnds(v: Datum, t: Type, cut: Bytes)
    requires IsOf(v, t) && CutOff(cut, Encode(v, t))
    ensures Decode(cut, t) == Err(Ended)
    decreases t, 1
  {
    PowerValues();
    match t
    case UInt(width) =>
    case Int32 =>
    case Bool =>
    case Unit =>
    case Text => CutText(v.utf8, cut);
    case Pair(a, b) => CutPair(v, a, b, cut);
    case OptionOf(a) =>
      if v.Absent? {
        CutTag(cut, 0, []);
      } else {
        CutTag(cut, 1, Encode(v.v, a));
        if ReadNumber(cut, 1).Ok? {
          CutEnds(v.v, a, ReadNumber(cut, 1).value.1);
        }
      }
    case ResultOf(a, b) =>
      if v.Good? {
        CutTag(cut, 1, Encode(v.v, a));
        if ReadNumber(cut, 1).Ok? {
          CutEnds(v.v, a, ReadNumber(cut, 1).value.1);
        }
      } else {
        CutTag(cut, 0, Encode(v.v, b));
        if ReadNumber(cut, 1).Ok? {
          CutEnds(v.v, b, ReadNumber(cut, 1).value.1);
        }
      }
    case VecOf(a) =>
      CutNumber(cut, |v.items|, 4, EncodeItems(v.items, a));
      if ReadNumber(cut, 4).Ok? {
        CutItems(v.items, a, ReadNumber(cut, 4).value.1);
      }
    case ArrayOf(a, n) => CutItems(v.items, a, cut);
    case MapOf(_, _) =>
      CutNumber(cut, |v.rows|, 4, EncodeRows(v.rows, None, t));
      if ReadNumber(cut, 4).Ok? {
        CutRows(v.rows, None, t, ReadNumber(cut, 4).value.1);
      }
  }

  lemma CutText(utf8: Bytes, cut: Bytes)
    requires |utf8| < U32 && CutOff(cut, Prefix(|utf8|) + utf8)
    ensures Decode(cut, Text) == Err(Ended)
  {
    PowerValues();
    CutNumber(cut, |utf8|, 4, utf8);
  }

  lemma CutPair(v: Datum, a: Type, b: Type, cut: Bytes)
    requires IsOf(v, Pair(a, b)) && CutOff(cut, Encode(v, Pair(a, b)))
    ensures Decode(cut, Pair(a, b)) == Err(Ended)
    decreases Pair(a, b), 0
  {
    var first := Encode(v.fst, a);
    CutThrough(cut, first, Encode(v.snd, b));
    if CutOff(cut, first) {
      CutEnds(v.fst, a, cut);
    } else {
      RoundTrip(v.fst, a, cut[|first|..]);
      CutEnds(v.snd, b, cut[|first|..]);
    }
  }

  lemma {:induction false} CutItems(items: seq<Datum>, t: Type, cut: Bytes)
    requires AllOf(items, t) && CutOff(cut, EncodeItems(items, t))
    ensures DecodeItems(cut, |items|, t) == Err(Ended)
    decreases t, 2, |items|
  {
    var first := Encode(items[0], t);
    CutThrough(cut, first, EncodeItems(items[1..], t));
    if CutOff(cut, first) {
      CutEnds(items[0], t, cut);
    } else {
      RoundTrip(items[0], t, cut[|first|..]);
      CutItems(items[1..], t, cut[|first|..]);
    }
  }

  lemma {:induction false} CutRows(rows: seq<Row>, prev: Option<Datum>, t: Type, cut: Bytes)
    requires t.MapOf? && AllRows(rows, prev, t) && CutOff(cut, EncodeRows(rows, prev, t))
    ensures DecodeRows(cut, |rows|, prev, t) == Err(Ended)
    decreases t, 0, |rows|
  {
    var row := rows[0];
    var key, value := Encode(row.key, t.key), Encode(row.value, t.value);
    var others := EncodeRows(rows[1..], Some(row.key), t);
    assert key + value + others == key + (value + others);
    CutThrough(cut, key, value + others);
    if CutOff(cut, key) {
      CutEnds(row.key, t.key, cut);
    } else {
      var middle := cut[|key|..];
      RoundTrip(row.key, t.key, middle);
      CutThrough(middle, value, others);
      if CutOff(middle, value) {
        CutEnds(row.value, t.value, middle);
      } else {
        RoundTrip(row.value, t.value, middle[|value|..]);
        CutRows(rows[1..], Some(row.key), t, middle[|value|..]);
      }
    }
  }

  /** Bytes after a whole encoding make it invalid. */
  lemma TrailingInvalid(v: Datum, t: Type, more: Bytes)
    requires IsOf(v, t) && more != []
    ensures DecodeAll(Encode(v, t) + more, t) == Err(Invalid)
  {
    RoundTrip(v, t, more);
  }
}

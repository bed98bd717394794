/** Typed tables over ordered byte strings: the byte ranges behind prefix and
    range scans, and what they mean for the typed rows. */
module ByteTables {
  import opened Ordered
  import opened BigEndian
  import opened Codec
  import opened KeyOrder

  // ----- the end of a prefix -----

  /** The prefix with its last byte below 0xFF raised and the tail dropped. */
  function UpperBound(prefix: Bytes): Option<Bytes> {
    if prefix == [] then None else
      var rest := UpperBound(prefix[1..]);
      if rest.Some? then Some([prefix[0]] + rest.value)
      else if prefix[0] < 0xFF then Some([Raised(prefix[0])])
      else None
  }

  function Raised(b: Byte): Byte
    requires b < 0xFF
  {
    b + 1
  }

  lemma {:induction false} UpperBoundAppend(bound: Bytes, last: Byte)
    ensures UpperBound(bound + [last]) == if last < 0xFF then Some(bound + [Raised(last)]) else UpperBound(bound)
    decreases |bound|
  {
    if bound == [] {
      assert bound + [last] == [last] && [last][1..] == [];
      if last < 0xFF {
        assert bound + [Raised(last)] == [Raised(last)];
      }
    } else {
      UpperBoundAppend(bound[1..], last);
      assert (bound + [last])[1..] == bound[1..] + [last];
      if last < 0xFF {
        assert [bound[0]] + (bound[1..] + [Raised(last)]) == bound + [Raised(last)];
      }
    }
  }

  method PrefixUpperBound(prefix: Bytes) returns (r: Option<Bytes>)
    ensures r == UpperBound(prefix)
  {
    var bound := prefix;
    while bound != []
      invariant UpperBound(bound) == UpperBound(prefix)
      decreases |bound|
    {
      var n := |bound| - 1;
      UpperBoundAppend(bound[..n], bound[n]);
      assert bound == bound[..n] + [bound[n]];
      if bound[n] < 0xFF {
        bound := bound[..n] + [Raised(bound[n])];
        return Some(bound);
      }
      bound := bound[..n];
    }
    return None;
  }

  datatype Bound<T> = Included(at: T) | Excluded(at: T) | Unbounded

  predicate AboveLower(s: Bytes, lower: Bound<Bytes>) {
    match lower
    case Included(at) => !LexLess(s, at)
    case Excluded(at) => LexLess(at, s)
    case Unbounded => true
  }

  predicate BelowUpper(s: Bytes, upper: Bound<Bytes>) {
    match upper
    case Included(at) => !LexLess(at, s)
    case Excluded(at) => LexLess(s, at)
    case Unbounded => true
  }

  type Bounds = (Bound<Bytes>, Bound<Bytes>)

  predicate InBounds(s: Bytes, bounds: Bounds) {
    AboveLower(s, bounds.0) && BelowUpper(s, bounds.1)
  }

  function PrefixBounds(prefix: Bytes): Bounds {
    (Included(prefix), if UpperBound(prefix).Some? then Excluded(UpperBound(prefix).value) else Unbounded)
  }

  /** The bounds of a prefix hold exactly the strings that start with it, empty
      and all-0xFF prefixes included. */
  lemma {:induction false} PrefixBoundsExact(prefix: Bytes, s: Bytes)
    ensures InBounds(s, PrefixBounds(prefix)) <==> prefix <= s
    decreases |prefix|
  {
    if prefix != [] && s != [] {
      PrefixBoundsExact(prefix[1..], s[1..]);
      assert prefix <= s <==> prefix[0] == s[0] && prefix[1..] <= s[1..] by {
        assert s == [s[0]] + s[1..] && prefix == [prefix[0]] + prefix[1..];
      }
      var rest := UpperBound(prefix[1..]);
      if rest.Some? {
        assert ([prefix[0]] + rest.value)[1..] == rest.value;
      } else if prefix[0] < 0xFF {
        assert UpperBound(prefix) == Some([Raised(prefix[0])]) && [Raised(prefix[0])][1..] == [];
        assert !LexLess(s[1..], []);
      }
    }
  }

  /** The upper bound is the least string above everything that starts with the
      prefix; where there is none, no string is above all of them. */
  lemma UpperBoundLeast(prefix: Bytes, s: Bytes)
    requires forall x: Bytes :: prefix <= x ==> LexLess(x, s)
    ensures UpperBound(prefix).Some? && !LexLess(s, UpperBound(prefix).value)
  {
    assert LexLess(prefix, s);
    LexTotal(prefix, s);
    LexTotal(s, s);
    PrefixBoundsExact(prefix, s);
  }

  function EncodedBound(bound: Bound<Datum>, t: Type): Bound<Bytes>
    requires bound.Unbounded? || IsOf(bound.at, t)
  {
    match bound
    case Included(at) => Included(Encode(at, t))
    case Excluded(at) => Excluded(Encode(at, t))
    case Unbounded => Unbounded
  }

  predicate KeyInRange(k: Datum, lower: Bound<Datum>, upper: Bound<Datum>) {
    && (match lower
        case Included(at) => k == at || Less(at, k)
        case Excluded(at) => Less(at, k)
        case Unbounded => true)
    && (match upper
        case Included(at) => k == at || Less(k, at)
        case Excluded(at) => Less(k, at)
        case Unbounded => true)
  }

  lemma OrderEither(v: Datum, w: Datum, t: Type)
    requires InOrder(t) && IsOf(v, t) && IsOf(w, t)
    ensures !LexLess(Encode(v, t), Encode(w, t)) <==> v == w || Less(w, v)
  {
    OrderPreserved(v, w, t);
    OrderPreserved(w, v, t);
    LexTotal(Encode(v, t), Encode(w, t));
    EncodingsApart(v, w, t);
    LessIrreflexive(v);
  }

  /** A byte range over encoded keys is the typed range. */
  lemma RangeExact(k: Datum, lower: Bound<Datum>, upper: Bound<Datum>, t: Type)
    requires InOrder(t) && IsOf(k, t)
    requires (lower.Unbounded? || IsOf(lower.at, t)) && (upper.Unbounded? || IsOf(upper.at, t))
    ensures InBounds(Encode(k, t), (EncodedBound(lower, t), EncodedBound(upper, t))) <==> KeyInRange(k, lower, upper)
  {
    if !lower.Unbounded? {
      AboveExact(k, lower.at, t);
    }
    if !upper.Unbounded? {
      AboveExact(upper.at, k, t);
    }
  }

  /** Byte order against key order, both ways. */
  lemma AboveExact(v: Datum, w: Datum, t: Type)
    requires InOrder(t) && IsOf(v, t) && IsOf(w, t)
    ensures !LexLess(Encode(v, t), Encode(w, t)) <==> v == w || Less(w, v)
    ensures LexLess(Encode(w, t), Encode(v, t)) <==> Less(w, v)
  {
    OrderEither(v, w, t);
    OrderPreserved(w, v, t);
  }

  /** The range in full: nothing below an included lower bound nor above an
      included upper one, and only what is strictly within excluded ones. */
  lemma InRangeIff(k: Datum, lower: Bound<Datum>, upper: Bound<Datum>, t: Type)
    requires IsOf(k, t)
    requires (lower.Unbounded? || IsOf(lower.at, t)) && (upper.Unbounded? || IsOf(upper.at, t))
    ensures KeyInRange(k, lower, upper) <==>
      && (lower.Included? ==> !Less(k, lower.at)) && (lower.Excluded? ==> Less(lower.at, k))
      && (upper.Included? ==> !Less(upper.at, k)) && (upper.Excluded? ==> Less(k, upper.at))
  {
    LessIrreflexive(k);
    if lower.Included? {
      NotLess(k, lower.at, t);
    }
    if upper.Included? {
      NotLess(upper.at, k, t);
    }
  }

  lemma NotLess(a: Datum, b: Datum, t: Type)
    requires IsOf(a, t) && IsOf(b, t)
    ensures !Less(a, b) <==> a == b || Less(b, a)
  {
    LessTotal(a, b, t);
    LessIrreflexive(a);
    if Less(a, b) && Less(b, a) {
      LessTransitive(a, b, a);
    }
  }

  // ----- prefixes of tuple keys -----

  /** `p` is the type of the first elements of tuples of type `t`. */
  predicate IsPrefixType(p: Type, t: Type) {
    p.Unit? || (p.Pair? && t.Pair? && p.first == t.first && IsPrefixType(p.second, t.second))
  }

  /** The tuple's first elements are those of `prefix`. */
  predicate Starts(key: Datum, prefix: Datum) {
    prefix.Nothing? || (prefix.Both? && key.Both? && prefix.fst == key.fst && Starts(key.snd, prefix.snd))
  }

  /** The bytes of a tuple start with those of a prefix exactly if its first
      elements are the prefix's. */
  lemma {:induction false} PrefixExact(prefix: Datum, p: Type, key: Datum, t: Type)
    requires IsPrefixType(p, t) && IsOf(prefix, p) && IsOf(key, t)
    ensures Encode(prefix, p) <= Encode(key, t) <==> Starts(key, prefix)
    decreases p
  {
    if p.Pair? {
      var a, b := Encode(prefix.fst, p.first), Encode(prefix.snd, p.second);
      var x, y := Encode(key.fst, t.first), Encode(key.snd, t.second);
      PrefixExact(prefix.snd, p.second, key.snd, t.second);
      EncodingsApart(prefix.fst, key.fst, p.first);
      if a + b <= x + y {
        HeadsAgree(a, b, x, y);
      }
      if prefix.fst == key.fst && b <= y {
        assert x + y == (a + b) + y[|b|..];
      }
      if a == x && a + b <= x + y {
        assert (a + b)[|a|..] == b && (x + y)[|a|..] == y;
      }
    }
  }

  lemma HeadsAgree(a: Bytes, b: Bytes, x: Bytes, y: Bytes)
    requires a + b <= x + y && Apart(a, x)
    ensures a == x
  {
    var n := if |a| <= |x| then |a| else |x|;
    assert a[..n] == (a + b)[..n] == (x + y)[..n] == x[..n];
    assert a[..|a|] == a && x[..|x|] == x;
  }

  // ----- tables -----

  datatype Schema = Schema(key: Type, value: Type)

  type Rows = map<Bytes, Bytes>

  /** All rows are encodings of typed keys and values. */
  ghost predicate Stored(rows: Rows, schema: Schema) {
    forall b :: b in rows ==> DecodeAll(b, schema.key).Ok? && DecodeAll(rows[b], schema.value).Ok?
  }

  ghost function KeysOf(rows: Rows, schema: Schema): (keys: set<Datum>)
    ensures forall k :: k in keys ==> IsOf(k, schema.key) && Encode(k, schema.key) in rows
  {
    forall b | b in rows && DecodeAll(b, schema.key).Ok?
      ensures IsOf(DecodeAll(b, schema.key).value, schema.key)
      ensures Encode(DecodeAll(b, schema.key).value, schema.key) == b
    {
      KeyIs(b, schema.key);
    }
    set b | b in rows && DecodeAll(b, schema.key).Ok? :: DecodeAll(b, schema.key).value
  }

  /** The ordered map the byte table stands for. */
  ghost function Typed(rows: Rows, schema: Schema): map<Datum, Datum>
    requires Stored(rows, schema)
  {
    map k | k in KeysOf(rows, schema) :: DecodeAll(rows[Encode(k, schema.key)], schema.value).value
  }

  lemma KeyIs(b: Bytes, t: Type)
    requires DecodeAll(b, t).Ok?
    ensures IsOf(DecodeAll(b, t).value, t) && Encode(DecodeAll(b, t).value, t) == b
  {
    DecodesExactlyEncodings(b, t, DecodeAll(b, t).value);
  }

  lemma EncodedDecodes(k: Datum, t: Type)
    requires IsOf(k, t)
    ensures DecodeAll(Encode(k, t), t) == Ok(k)
  {
    DecodesExactlyEncodings(Encode(k, t), t, k);
  }

  /** Looking a key up by its bytes is looking it up in the typed map. */
  lemma TypedLookup(rows: Rows, schema: Schema, k: Datum)
    requires Stored(rows, schema)
    ensures k in Typed(rows, schema) <==> IsOf(k, schema.key) && Encode(k, schema.key) in rows
    ensures k in Typed(rows, schema) ==>
      DecodeAll(rows[Encode(k, schema.key)], schema.value) == Ok(Typed(rows, schema)[k])
  {
    if IsOf(k, schema.key) && Encode(k, schema.key) in rows {
      EncodedDecodes(k, schema.key);
      assert DecodeAll(Encode(k, schema.key), schema.key).value in KeysOf(rows, schema);
    }
  }

  // ----- what writes do to the typed map -----

  lemma InsertTyped(rows: Rows, schema: Schema, key: Datum, value: Datum)
    requires Stored(rows, schema) && IsOf(key, schema.key) && IsOf(value, schema.value)
    ensures var more := rows[Encode(key, schema.key) := Encode(value, schema.value)];
      Stored(more, schema) && Typed(more, schema) == Typed(rows, schema)[key := value]
  {
    var b, more := Encode(key, schema.key), rows[Encode(key, schema.key) := Encode(value, schema.value)];
    EncodedDecodes(key, schema.key);
    EncodedDecodes(value, schema.value);
    assert Stored(more, schema);
    var before, after := Typed(rows, schema), Typed(more, schema);
    forall k
      ensures k in after <==> k in before || k == key
      ensures k in after ==> after[k] == if k == key then value else before[k]
    {
      InsertLookup(rows, more, schema, key, value, k);
    }
    UpdatedMap(before, after, key, value);
  }

  lemma UpdatedMap(before: map<Datum, Datum>, after: map<Datum, Datum>, key: Datum, value: Datum)
    requires forall k :: k in after <==> k in before || k == key
    requires forall k :: k in after ==> after[k] == if k == key then value else before[k]
    ensures after == before[key := value]
  {
  }

  ghost predicate InsertedAt(rows: Rows, more: Rows, schema: Schema, key: Datum, value: Datum, k: Datum)
    requires Stored(rows, schema) && Stored(more, schema)
  {
    && (k in Typed(more, schema) <==> k in Typed(rows, schema) || k == key)
    && (k in Typed(more, schema) ==> Typed(more, schema)[k] == if k == key then value else Typed(rows, schema)[k])
  }

  lemma InsertLookup(rows: Rows, more: Rows, schema: Schema, key: Datum, value: Datum, k: Datum)
    requires Stored(rows, schema) && Stored(more, schema) && IsOf(key, schema.key) && IsOf(value, schema.value)
    requires more == rows[Encode(key, schema.key) := Encode(value, schema.value)]
    ensures InsertedAt(rows, more, schema, key, value, k)
  {
    LookupIs(rows, schema, k);
    LookupIs(more, schema, k);
    UpdatedLookup(rows, more, schema, key, value, k);
  }

  /** What the rows hold under a key. */
  function Lookup(rows: Rows, schema: Schema, k: Datum): Option<Datum>
    requires Stored(rows, schema)
  {
    if IsOf(k, schema.key) then Held(rows, Encode(k, schema.key), schema) else None
  }

  function Held(rows: Rows, b: Bytes, schema: Schema): Option<Datum>
    requires Stored(rows, schema)
  {
    if b in rows then Some(DecodeAll(rows[b], schema.value).value) else None
  }

  lemma LookupIs(rows: Rows, schema: Schema, k: Datum)
    requires Stored(rows, schema)
    ensures Lookup(rows, schema, k) == if k in Typed(rows, schema) then Some(Typed(rows, schema)[k]) else None
  {
    TypedLookup(rows, schema, k);
  }

  lemma UpdatedLookup(rows: Rows, more: Rows, schema: Schema, key: Datum, value: Datum, k: Datum)
    requires Stored(rows, schema) && Stored(more, schema) && IsOf(key, schema.key) && IsOf(value, schema.value)
    requires more == rows[Encode(key, schema.key) := Encode(value, schema.value)]
    ensures Lookup(more, schema, k) == if k == key then Some(value) else Lookup(rows, schema, k)
  {
    EncodedDecodes(value, schema.value);
    HeldAfter(rows, more, schema, Encode(key, schema.key), Encode(value, schema.value), value);
    if !IsOf(k, schema.key) {
      assert Lookup(more, schema, k) == None;
    } else if k != key {
      OtherBytes(k, key, schema.key);
      assert Lookup(more, schema, k) == Held(more, Encode(k, schema.key), schema);
    }
  }

  lemma HeldAfter(rows: Rows, more: Rows, schema: Schema, b: Bytes, written: Bytes, value: Datum)
    requires Stored(rows, schema) && Stored(more, schema) && more == rows[b := written]
    requires DecodeAll(written, schema.value) == Ok(value)
    ensures Held(more, b, schema) == Some(value)
    ensures forall c :: c != b ==> Held(more, c, schema) == Held(rows, c, schema)
  {
  }

  lemma OtherBytes(k: Datum, key: Datum, t: Type)
    requires IsOf(k, t) && IsOf(key, t) && k != key
    ensures Encode(k, t) != Encode(key, t)
  {
    EncodingsApart(k, key, t);
  }

  /** Keeping the rows whose keys satisfy `keep`. */
  ghost predicate KeepsOnly(rows: Rows, fewer: Rows, schema: Schema, keep: Datum -> bool) {
    && Stored(rows, schema) && (forall b :: b in fewer ==> b in rows && fewer[b] == rows[b])
    && forall k {:trigger keep(k)} :: IsOf(k, schema.key) ==> KeptAt(rows, fewer, Encode(k, schema.key), keep(k))
  }

  predicate KeptAt(rows: Rows, fewer: Rows, b: Bytes, kept: bool) {
    b in rows ==> (b in fewer <==> kept)
  }

  lemma KeepTyped(rows: Rows, fewer: Rows, schema: Schema, keep: Datum -> bool)
    requires KeepsOnly(rows, fewer, schema, keep)
    ensures Stored(fewer, schema)
    ensures Typed(fewer, schema) == Kept(Typed(rows, schema), keep)
  {
    var before, after := Typed(rows, schema), Typed(fewer, schema);
    forall k
      ensures k in after <==> k in before && keep(k)
      ensures k in after ==> after[k] == before[k]
    {
      LookupIs(rows, schema, k);
      LookupIs(fewer, schema, k);
      KeptLookup(rows, fewer, schema, keep, k);
    }
    FilteredMap(before, after, keep);
  }

  lemma KeptLookup(rows: Rows, fewer: Rows, schema: Schema, keep: Datum -> bool, k: Datum)
    requires KeepsOnly(rows, fewer, schema, keep) && Stored(fewer, schema)
    ensures Lookup(fewer, schema, k) == if keep(k) then Lookup(rows, schema, k) else None
  {
  }

  lemma FilteredMap(before: map<Datum, Datum>, after: map<Datum, Datum>, keep: Datum -> bool)
    requires forall k :: k in after <==> k in before && keep(k)
    requires forall k :: k in after ==> after[k] == before[k]
    ensures after == Kept(before, keep)
  {
  }

  ghost function Kept(m: map<Datum, Datum>, keep: Datum -> bool): map<Datum, Datum> {
    map k | k in m && keep(k) :: m[k]
  }

  lemma KeptButKey(m: map<Datum, Datum>, key: Datum)
    ensures Kept(m, k => k != key) == WithoutKey(m, key)
  {
  }

  lemma KeptButPrefix(m: map<Datum, Datum>, prefix: Datum)
    ensures Kept(m, k => !Starts(k, prefix)) == WithoutPrefix(m, prefix)
  {
  }

  /** The rows outside byte bounds, and those but for one key. */
  function Outside(rows: Rows, bounds: Bounds): Rows {
    map b | b in rows && !InBounds(b, bounds) :: rows[b]
  }

  function Except(rows: Rows, bytes: Bytes): Rows {
    map b | b in rows && b != bytes :: rows[b]
  }

  function WithoutKey(m: map<Datum, Datum>, key: Datum): map<Datum, Datum> {
    map k | k in m && k != key :: m[k]
  }

  function WithoutPrefix(m: map<Datum, Datum>, prefix: Datum): map<Datum, Datum> {
    map k | k in m && !Starts(k, prefix) :: m[k]
  }

  /** What is outside the bounds of a prefix is what does not start with it. */
  lemma RemovePrefixTyped(rows: Rows, schema: Schema, prefix: Datum, p: Type)
    requires Stored(rows, schema) && IsPrefixType(p, schema.key) && IsOf(prefix, p)
    ensures var fewer := Outside(rows, PrefixBounds(Encode(prefix, p)));
      Stored(fewer, schema) && Typed(fewer, schema) == WithoutPrefix(Typed(rows, schema), prefix)
  {
    var bounds, keep := PrefixBounds(Encode(prefix, p)), k => !Starts(k, prefix);
    forall k | IsOf(k, schema.key) ensures KeptAt(rows, Outside(rows, bounds), Encode(k, schema.key), keep(k)) {
      PrefixBoundsExact(Encode(prefix, p), Encode(k, schema.key));
      PrefixExact(prefix, p, k, schema.key);
    }
    KeepTyped(rows, Outside(rows, bounds), schema, keep);
    KeptButPrefix(Typed(rows, schema), prefix);
  }

  lemma RemoveTyped(rows: Rows, schema: Schema, key: Datum)
    requires Stored(rows, schema) && IsOf(key, schema.key)
    ensures var fewer := Except(rows, Encode(key, schema.key));
      Stored(fewer, schema) && Typed(fewer, schema) == WithoutKey(Typed(rows, schema), key)
  {
    var fewer, keep := Except(rows, Encode(key, schema.key)), k => k != key;
    forall k | IsOf(k, schema.key) ensures KeptAt(rows, fewer, Encode(k, schema.key), keep(k)) {
      EncodingsApart(k, key, schema.key);
    }
    KeepTyped(rows, fewer, schema, keep);
    KeptButKey(Typed(rows, schema), key);
  }

  // ----- scans -----

  lemma LeastExistsBytes(s: set<Bytes>) returns (m: Bytes)
    requires s != {}
    ensures m in s && forall x :: x in s && x != m ==> LexLess(m, x)
  {
    var y :| y in s;
    if s - {y} == {} {
      assert s == {y};
      m := y;
    } else {
      var least := LeastExistsBytes(s - {y});
      LexTotal(y, least);
      m := if LexLess(y, least) then y else least;
      forall x | x in s && x != m ensures LexLess(m, x) {
        if m == y && x != least {
          assert x in s - {y};
          LexTransitive(y, least, x);
        }
      }
    }
  }

  /** The keys in `s`, each once, ascending. */
  ghost predicate ListsAscending(keys: seq<Bytes>, s: set<Bytes>) {
    && (forall b :: b in keys <==> b in s)
    && forall i, j :: 0 <= i < j < |keys| ==> LexLess(keys[i], keys[j])
  }

  lemma ListMore(keys: seq<Bytes>, done: set<Bytes>, left: set<Bytes>, m: Bytes)
    requires ListsAscending(keys, done) && (forall b, c :: b in done && c in left ==> LexLess(b, c))
    requires m in left && forall x :: x in left && x != m ==> LexLess(m, x)
    ensures ListsAscending(keys + [m], done + {m})
    ensures forall b, c :: b in done + {m} && c in left - {m} ==> LexLess(b, c)
  {
    var more := keys + [m];
    forall i, j | 0 <= i < j < |more| ensures LexLess(more[i], more[j]) {
      if j == |keys| {
        assert keys[i] in keys;
      }
    }
  }
}

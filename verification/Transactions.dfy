/** A transaction's typed operations over byte tables. */
module Transactions {
  import opened Ordered
  import opened Codec
  import opened KeyOrder
  import opened ByteTables

  type Name = nat
  type Entry = (Datum, Datum)

  /** `listing` is the typed rows `want` asks for, each once; ascending by key
      where encodings keep the order, or descending. */
  ghost predicate IsListing(listing: seq<Entry>, typed: map<Datum, Datum>, want: Datum -> bool, t: Type, rev: bool) {
    && (forall i :: 0 <= i < |listing| ==> Wanted(listing[i], typed, want))
    && (forall k :: k in typed && want(k) ==> (k, typed[k]) in listing)
    && (forall i, j :: 0 <= i < j < |listing| ==> Follows(listing[i].0, listing[j].0, t, rev))
  }

  /** One key comes before another in a listing. */
  predicate Follows(a: Datum, b: Datum, t: Type, rev: bool) {
    a != b && (InOrder(t) ==> if rev then Less(b, a) else Less(a, b))
  }

  ghost predicate Wanted(e: Entry, typed: map<Datum, Datum>, want: Datum -> bool) {
    e.0 in typed && want(e.0) && typed[e.0] == e.1
  }

  /** The bytes within `bounds` are those of the keys `want` asks for. */
  ghost predicate Selects(bounds: Bounds, want: Datum -> bool, t: Type) {
    forall k :: IsOf(k, t) ==> (InBounds(Encode(k, t), bounds) <==> want(k))
  }

  function EntryOf(rows: Rows, schema: Schema, b: Bytes): Entry
    requires b in rows && DecodeAll(b, schema.key).Ok? && DecodeAll(rows[b], schema.value).Ok?
  {
    (DecodeAll(b, schema.key).value, DecodeAll(rows[b], schema.value).value)
  }

  lemma EntryTyped(rows: Rows, schema: Schema, b: Bytes)
    requires Stored(rows, schema) && b in rows
    ensures var e := EntryOf(rows, schema, b);
      && IsOf(e.0, schema.key) && Encode(e.0, schema.key) == b
      && e.0 in Typed(rows, schema) && Typed(rows, schema)[e.0] == e.1
  {
    KeyIs(b, schema.key);
    TypedLookup(rows, schema, EntryOf(rows, schema, b).0);
  }

  /** Which of `n` rows, ascending, is the one taken after `i`: the next from
      the front, or from the back. */
  function Taken(i: nat, n: nat, rev: bool): nat
    requires i < n
  {
    if rev then n - 1 - i else i
  }

  /** `listing` decodes the rows under `keys`, taken from one end on. */
  ghost predicate Decodes(listing: seq<Entry>, rows: Rows, schema: Schema, keys: seq<Bytes>, rev: bool)
    requires Stored(rows, schema) && |listing| <= |keys| && forall b :: b in keys ==> b in rows
  {
    forall i :: 0 <= i < |listing| ==> listing[i] == EntryOf(rows, schema, keys[Taken(i, |keys|, rev)])
  }

  /** `keys` are the selected rows, ascending, and `listing` decodes them all. */
  ghost predicate Scanned(listing: seq<Entry>, rows: Rows, schema: Schema, bounds: Bounds, keys: seq<Bytes>, rev: bool)
    requires Stored(rows, schema)
  {
    && ListsAscending(keys, set b | b in rows && InBounds(b, bounds)) && |listing| == |keys|
    && Decodes(listing, rows, schema, keys, rev)
  }

  /** Decoding an ascending list of the selected keys lists the wanted rows. */
  lemma ListingOf(rows: Rows, schema: Schema, bounds: Bounds, want: Datum -> bool, keys: seq<Bytes>,
                  listing: seq<Entry>, rev: bool)
    requires Stored(rows, schema) && Selects(bounds, want, schema.key)
    requires Scanned(listing, rows, schema, bounds, keys, rev)
    ensures IsListing(listing, Typed(rows, schema), want, schema.key, rev)
  {
    var typed := Typed(rows, schema);
    forall i | 0 <= i < |listing| ensures Wanted(listing[i], typed, want) {
      var b := keys[Taken(i, |keys|, rev)];
      assert b in keys;
      EntryTyped(rows, schema, b);
    }
    forall k | k in typed && want(k) ensures (k, typed[k]) in listing {
      AllListed(rows, schema, bounds, want, keys, listing, rev, k);
    }
    forall i, j | 0 <= i < j < |listing| ensures Follows(listing[i].0, listing[j].0, schema.key, rev) {
      ListedInOrder(rows, schema, bounds, keys, listing, rev, i, j);
    }
  }

  lemma AllListed(rows: Rows, schema: Schema, bounds: Bounds, want: Datum -> bool, keys: seq<Bytes>,
                  listing: seq<Entry>, rev: bool, k: Datum)
    requires Stored(rows, schema) && Selects(bounds, want, schema.key)
    requires Scanned(listing, rows, schema, bounds, keys, rev)
    requires k in Typed(rows, schema) && want(k)
    ensures (k, Typed(rows, schema)[k]) in listing
  {
    TypedLookup(rows, schema, k);
    var b := Encode(k, schema.key);
    assert b in keys;
    var i :| 0 <= i < |keys| && keys[i] == b;
    EncodedDecodes(k, schema.key);
    var at := Taken(i, |keys|, rev);
    assert Taken(at, |keys|, rev) == i && listing[at] == EntryOf(rows, schema, b);
  }

  lemma ListedInOrder(rows: Rows, schema: Schema, bounds: Bounds, keys: seq<Bytes>, listing: seq<Entry>, rev: bool,
                      i: nat, j: nat)
    requires Stored(rows, schema) && Scanned(listing, rows, schema, bounds, keys, rev) && i < j < |listing|
    ensures Follows(listing[i].0, listing[j].0, schema.key, rev)
  {
    var p, q := Taken(i, |keys|, rev), Taken(j, |keys|, rev);
    assert keys[p] in keys && keys[q] in keys;
    if rev {
      EntriesInOrder(rows, schema, keys[q], keys[p]);
    } else {
      EntriesInOrder(rows, schema, keys[p], keys[q]);
    }
  }

  lemma EntriesInOrder(rows: Rows, schema: Schema, a: Bytes, b: Bytes)
    requires Stored(rows, schema) && a in rows && b in rows && LexLess(a, b)
    ensures var v, w := EntryOf(rows, schema, a).0, EntryOf(rows, schema, b).0;
      v != w && (InOrder(schema.key) ==> Less(v, w))
  {
    EntryTyped(rows, schema, a);
    EntryTyped(rows, schema, b);
    LexTotal(a, b);
    if InOrder(schema.key) {
      OrderPreserved(EntryOf(rows, schema, a).0, EntryOf(rows, schema, b).0, schema.key);
    }
  }

  lemma PrefixSelects(prefix: Datum, p: Type, t: Type)
    requires IsPrefixType(p, t) && IsOf(prefix, p)
    ensures Selects(PrefixBounds(Encode(prefix, p)), k => Starts(k, prefix), t)
  {
    forall k | IsOf(k, t) ensures InBounds(Encode(k, t), PrefixBounds(Encode(prefix, p))) <==> Starts(k, prefix) {
      PrefixBoundsExact(Encode(prefix, p), Encode(k, t));
      PrefixExact(prefix, p, k, t);
    }
  }

  lemma RangeSelects(lower: Bound<Datum>, upper: Bound<Datum>, t: Type)
    requires InOrder(t) && (lower.Unbounded? || IsOf(lower.at, t)) && (upper.Unbounded? || IsOf(upper.at, t))
    ensures Selects((EncodedBound(lower, t), EncodedBound(upper, t)), k => KeyInRange(k, lower, upper), t)
  {
    forall k | IsOf(k, t)
      ensures InBounds(Encode(k, t), (EncodedBound(lower, t), EncodedBound(upper, t))) <==> KeyInRange(k, lower, upper)
    {
      RangeExact(k, lower, upper, t);
    }
  }

  class WriteTx {
    const schemas: map<Name, Schema>
    var tables: map<Name, Rows>
    var touched: set<Name>

    ghost predicate Valid()
      reads this
    {
      tables.Keys == schemas.Keys && forall n :: n in tables ==> Stored(tables[n], schemas[n])
    }

    /** The typed contents of one table. */
    ghost function Contents(name: Name): map<Datum, Datum>
      requires Valid() && name in schemas
      reads this
    {
      Typed(tables[name], schemas[name])
    }

    constructor (schemas: map<Name, Schema>, tables: map<Name, Rows>)
      requires tables.Keys == schemas.Keys && forall n :: n in tables ==> Stored(tables[n], schemas[n])
      ensures Valid() && this.schemas == schemas && this.tables == tables && touched == {}
    {
      this.schemas, this.tables := schemas, tables;
      touched := {};
    }

    method Get(name: Name, key: Datum) returns (r: Option<Datum>)
      requires Valid() && name in schemas && IsOf(key, schemas[name].key)
      ensures r == if key in Contents(name) then Some(Contents(name)[key]) else None
    {
      LookupIs(tables[name], schemas[name], key);
      return Lookup(tables[name], schemas[name], key);
    }

    /** Touch one table and write its rows. */
    method Replace(name: Name, rows: Rows)
      requires Valid() && name in schemas && Stored(rows, schemas[name])
      modifies this
      ensures Valid() && touched == old(touched) + {name}
      ensures tables == old(tables)[name := rows]
    {
      touched := touched + {name};
      tables := tables[name := rows];
    }

    /** Insert, returning what was there. */
    method Insert(name: Name, key: Datum, value: Datum) returns (r: Option<Datum>)
      requires Valid() && name in schemas && IsOf(key, schemas[name].key) && IsOf(value, schemas[name].value)
      modifies this
      ensures Valid() && touched == old(touched) + {name}
      ensures Contents(name) == old(Contents(name))[key := value]
      ensures r == if key in old(Contents(name)) then Some(old(Contents(name))[key]) else None
      ensures forall n :: n in tables && n != name ==> tables[n] == old(tables)[n]
    {
      r := Get(name, key);
      InsertTyped(tables[name], schemas[name], key, value);
      Replace(name, tables[name][Encode(key, schemas[name].key) := Encode(value, schemas[name].value)]);
    }

    /** Remove one key, returning what was there. */
    method Remove(name: Name, key: Datum) returns (r: Option<Datum>)
      requires Valid() && name in schemas && IsOf(key, schemas[name].key)
      modifies this
      ensures Valid() && touched == old(touched) + {name}
      ensures Contents(name) == WithoutKey(old(Contents(name)), key)
      ensures r == if key in old(Contents(name)) then Some(old(Contents(name))[key]) else None
      ensures forall n :: n in tables && n != name ==> tables[n] == old(tables)[n]
    {
      r := Get(name, key);
      RemoveTyped(tables[name], schemas[name], key);
      Replace(name, Except(tables[name], Encode(key, schemas[name].key)));
    }

    /** Remove exactly the rows whose keys start with `prefix`. */
    method RemovePrefix(name: Name, prefix: Datum, p: Type)
      requires Valid() && name in schemas && IsPrefixType(p, schemas[name].key) && IsOf(prefix, p)
      modifies this
      ensures Valid() && touched == old(touched) + {name}
      ensures Contents(name) == WithoutPrefix(old(Contents(name)), prefix)
      ensures forall n :: n in tables && n != name ==> tables[n] == old(tables)[n]
    {
      RemovePrefixTyped(tables[name], schemas[name], prefix, p);
      Replace(name, Outside(tables[name], PrefixBounds(Encode(prefix, p))));
    }

    /** The keys within byte bounds, ascending. */
    method KeysWithin(rows: Rows, bounds: Bounds) returns (keys: seq<Bytes>)
      ensures ListsAscending(keys, set b | b in rows && InBounds(b, bounds))
    {
      keys := [];
      var left := set b | b in rows && InBounds(b, bounds);
      ghost var all, done: set<Bytes> := left, {};
      while left != {}
        invariant done + left == all && ListsAscending(keys, done)
        invariant forall b, c :: b in done && c in left ==> LexLess(b, c)
        decreases left
      {
        ghost var least := LeastExistsBytes(left);
        var m :| m in left && forall x :: x in left && x != m ==> LexLess(m, x);
        ListMore(keys, done, left, m);
        keys, left := keys + [m], left - {m};
        done := done + {m};
      }
      assert done == all;
    }

    /** Decode the rows within byte bounds, from the front or from the back;
        stored bytes never fail to decode. */
    method Scan(name: Name, bounds: Bounds, rev: bool, ghost want: Datum -> bool) returns (listing: seq<Entry>)
      requires Valid() && name in schemas && Selects(bounds, want, schemas[name].key)
      ensures IsListing(listing, Contents(name), want, schemas[name].key, rev)
    {
      var rows, schema := tables[name], schemas[name];
      var keys := KeysWithin(rows, bounds);
      listing := [];
      for i := 0 to |keys|
        invariant |listing| == i
        invariant Decodes(listing, rows, schema, keys, rev)
      {
        var b := keys[Taken(i, |keys|, rev)];
        assert b in keys;
        listing := listing + [EntryOf(rows, schema, b)];
      }
      ListingOf(rows, schema, bounds, want, keys, listing, rev);
    }

    method Iterate(name: Name, rev: bool) returns (listing: seq<Entry>)
      requires Valid() && name in schemas
      ensures IsListing(listing, Contents(name), _ => true, schemas[name].key, rev)
    {
      listing := Scan(name, (Unbounded, Unbounded), rev, _ => true);
    }

    method PrefixScan(name: Name, prefix: Datum, p: Type, rev: bool) returns (listing: seq<Entry>)
      requires Valid() && name in schemas && IsPrefixType(p, schemas[name].key) && IsOf(prefix, p)
      ensures IsListing(listing, Contents(name), k => Starts(k, prefix), schemas[name].key, rev)
    {
      PrefixSelects(prefix, p, schemas[name].key);
      listing := Scan(name, PrefixBounds(Encode(prefix, p)), rev, k => Starts(k, prefix));
    }

    method RangeScan(name: Name, lower: Bound<Datum>, upper: Bound<Datum>) returns (listing: seq<Entry>)
      requires Valid() && name in schemas && InOrder(schemas[name].key)
      requires lower.Unbounded? || IsOf(lower.at, schemas[name].key)
      requires upper.Unbounded? || IsOf(upper.at, schemas[name].key)
      ensures IsListing(listing, Contents(name), k => KeyInRange(k, lower, upper), schemas[name].key, false)
    {
      var t := schemas[name].key;
      RangeSelects(lower, upper, t);
      listing := Scan(name, (EncodedBound(lower, t), EncodedBound(upper, t)), false, k => KeyInRange(k, lower, upper));
    }
  }
}

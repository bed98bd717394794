/** The fountain encoder and the peeling decoder. */
module Peeling {
  import opened Ordered
  import opened Fountain

  const U32: nat := 0x1_0000_0000

  type Seed = nat

  /** What is taken from outside: the checksum, the seed hash, and the two draws
      of the generator it seeds: how many of `n` fragments, and which. */
  datatype Scheme = Scheme(
    checksumOf: Bytes -> Checksum,
    seedOf: (Checksum, nat) -> Seed,
    degree: (Seed, nat) -> nat,
    sample: (Seed, nat, nat) -> seq<nat>
  ) {
    /** The degree is between one and all, and a sample is of as many distinct
        fragments. */
    ghost predicate Sound() {
      && (forall seed, n :: n > 0 ==> 1 <= degree(seed, n) <= n)
      && (forall seed, n, k :: 1 <= k <= n ==> IsChoice(sample(seed, n, k), n) && |sample(seed, n, k)| == k)
    }
  }

  predicate IsChoice(indexes: seq<nat>, n: nat) {
    indexes != [] && Fountain.Distinct(indexes) && Within(indexes, n)
  }

  function ChooseFragments(scheme: Scheme, n: nat, checksum: Checksum, index: nat): seq<nat> {
    if index < n then [index] else
      var seed := scheme.seedOf(checksum, index);
      scheme.sample(seed, n, scheme.degree(seed, n))
  }

  lemma ChoiceSound(scheme: Scheme, n: nat, checksum: Checksum, index: nat)
    requires scheme.Sound() && n > 0
    ensures IsChoice(ChooseFragments(scheme, n, checksum, index), n)
  {
  }

  /** From the fragment count on, a sample of the degree drawn, both drawn anew
      for every checksum and index. */
  lemma ChoiceDrawn(scheme: Scheme, n: nat, checksum: Checksum, index: nat)
    requires scheme.Sound() && n > 0
    ensures index < n ==> ChooseFragments(scheme, n, checksum, index) == [index]
    ensures index >= n ==>
      var chosen, seed := ChooseFragments(scheme, n, checksum, index), scheme.seedOf(checksum, index);
      |chosen| == scheme.degree(seed, n) && chosen == scheme.sample(seed, n, |chosen|)
  {
  }

  /** Counts are kept in 32 bits. */
  datatype Meta = Meta(simpleFragments: nat, messageLength: nat, checksum: Checksum) {
    predicate Verifies() {
      simpleFragments > 0 && messageLength > 0 && CeilDiv(messageLength, simpleFragments) > 0
    }

    function FragmentLength(): nat
      requires simpleFragments > 0
    {
      CeilDiv(messageLength, simpleFragments)
    }
  }

  function NewMeta(simpleFragments: nat, messageLength: nat, checksum: Checksum): Meta {
    Meta(simpleFragments % U32, messageLength % U32, checksum)
  }

  datatype Fragment = Fragment(meta: Meta, index: nat, data: Bytes) {
    function Indexes(scheme: Scheme): seq<nat> {
      ChooseFragments(scheme, meta.simpleFragments, meta.checksum, index)
    }
  }

  // ----- encoding -----

  /** The fragments a message is cut into. */
  function Parts(message: Bytes, max: nat): (parts: seq<Bytes>)
    requires message != [] && max > 0
  {
    FragmentLengthAgrees(|message|, max);
    Partition(message, Fountain.FragmentLength(|message|, max))
  }

  lemma PartsShape(message: Bytes, max: nat)
    requires message != [] && max > 0
    ensures var parts, size := Parts(message, max), Fountain.FragmentLength(|message|, max);
      && |parts| > 0 && size > 0 && Equal(parts, size)
      && CeilDiv(|message|, |parts|) == size && |parts| <= |message|
      && |message| <= |Concat(parts)| && Concat(parts)[..|message|] == message
  {
    var size := Fountain.FragmentLength(|message|, max);
    FragmentLengthAgrees(|message|, max);
    PartitionJoins(message, size);
    CeilDivLeast(|message|, size, |message|);
    AtLeastSelf(|message|, size);
  }

  lemma AtLeastSelf(a: nat, b: nat)
    requires b > 0
    ensures a <= a * b
  {
  }

  /** What the encoder emits at an index. */
  function Encoded(scheme: Scheme, message: Bytes, max: nat, index: nat): Fragment
    requires message != [] && max > 0 && scheme.Sound()
  {
    PartsShape(message, max);
    var parts, checksum := Parts(message, max), scheme.checksumOf(message);
    ChoiceSound(scheme, |parts|, checksum, index);
    Fragment(NewMeta(|parts|, |message|, checksum), index,
             Combined(parts, |parts[0]|, ChooseFragments(scheme, |parts|, checksum, index)))
  }

  lemma EncodedChoice(scheme: Scheme, message: Bytes, max: nat, index: nat)
    requires message != [] && max > 0 && scheme.Sound() && |message| < U32
    ensures var f, parts := Encoded(scheme, message, max, index), Parts(message, max);
      && |parts| > 0 && f.meta == Meta(|parts|, |message|, scheme.checksumOf(message)) && f.index == index
      && f.Indexes(scheme) == ChooseFragments(scheme, |parts|, scheme.checksumOf(message), index)
  {
    PartsShape(message, max);
  }

  lemma EncodedPart(scheme: Scheme, message: Bytes, max: nat, index: nat)
    requires message != [] && max > 0 && scheme.Sound() && index < |Parts(message, max)|
    ensures Encoded(scheme, message, max, index).data == Parts(message, max)[index]
  {
    PartsShape(message, max);
    CombinedOne(Parts(message, max), |Parts(message, max)[0]|, index);
  }

  /** Fragment `index` of a message is its index-th part, and from the part count
      on the exclusive or of the parts drawn for its checksum and that index. */
  lemma FragmentOf(scheme: Scheme, message: Bytes, max: nat, index: nat)
    requires message != [] && max > 0 && scheme.Sound() && |message| < U32
    ensures var f, parts := Encoded(scheme, message, max, index), Parts(message, max);
      var chosen, seed := f.Indexes(scheme), scheme.seedOf(scheme.checksumOf(message), index);
      && f.meta == Meta(|parts|, |message|, scheme.checksumOf(message)) && f.index == index
      && (index < |parts| ==> chosen == [index] && f.data == parts[index])
      && (index >= |parts| ==>
            |chosen| == scheme.degree(seed, |parts|) && chosen == scheme.sample(seed, |parts|, |chosen|))
  {
    EncodedChoice(scheme, message, max, index);
    ChoiceDrawn(scheme, |Parts(message, max)|, scheme.checksumOf(message), index);
    if index < |Parts(message, max)| {
      EncodedPart(scheme, message, max, index);
    }
  }

  method XorInto(v1: array<bv8>, v2: Bytes)
    requires v1.Length == |v2|
    modifies v1
    ensures v1[..] == Xor(old(v1[..]), v2)
  {
    ghost var was := v1[..];
    for i := 0 to v1.Length
      invariant forall j :: 0 <= j < i ==> v1[j] == was[j] ^ v2[j]
      invariant forall j :: i <= j < v1.Length ==> v1[j] == was[j]
    {
      v1[i] := v1[i] ^ v2[i];
    }
    assert v1[..] == Xor(was, v2);
  }

  class Encoder {
    const scheme: Scheme
    const message: Bytes
    const max: nat
    const fragments: seq<Bytes>
    const messageLength: nat
    const checksum: Checksum
    var index: nat

    ghost predicate Valid()
      reads this
    {
      && scheme.Sound() && message != [] && max > 0
      && fragments == Parts(message, max) && messageLength == |message| && checksum == scheme.checksumOf(message)
    }

    constructor (scheme: Scheme, message: Bytes, max: nat)
      requires scheme.Sound() && message != [] && max > 0
      ensures Valid() && this.scheme == scheme && this.message == message && this.max == max && index == 0
    {
      this.scheme, this.message, this.max := scheme, message, max;
      fragments, messageLength, checksum := Parts(message, max), |message|, scheme.checksumOf(message);
      index := 0;
    }

    /** Simple fragments first, then seeded combinations of them. */
    method NextFragment() returns (fragment: Fragment)
      requires Valid()
      modifies this`index
      ensures Valid() && index == old(index) + 1
      ensures fragment == Encoded(scheme, message, max, old(index))
    {
      var current := index;
      index := index + 1;
      PartsShape(message, max);
      ChoiceSound(scheme, |fragments|, checksum, current);
      var indexes := ChooseFragments(scheme, |fragments|, checksum, current);
      var data := Combine(indexes);
      return Fragment(NewMeta(|fragments|, messageLength, checksum), current, data);
    }

    /** Xor the chosen fragments into a zeroed buffer. */
    method Combine(indexes: seq<nat>) returns (r: Bytes)
      requires fragments != [] && Equal(fragments, |fragments[0]|) && Within(indexes, |fragments|)
      ensures r == Combined(fragments, |fragments[0]|, indexes)
    {
      var data := new bv8[|fragments[0]|](_ => 0);
      assert data[..] == Combined(fragments, data.Length, indexes[..0]);
      for i := 0 to |indexes|
        invariant data[..] == Combined(fragments, data.Length, indexes[..i])
      {
        CombinedNext(fragments, data.Length, indexes, i);
        XorInto(data, fragments[indexes[i]]);
      }
      assert indexes[..|indexes|] == indexes;
      r := data[..];
    }
  }

  lemma CombinedNext(sources: seq<Bytes>, size: nat, indexes: seq<nat>, i: nat)
    requires Equal(sources, size) && Within(indexes, |sources|) && i < |indexes|
    ensures Combined(sources, size, indexes[..i + 1]) == Xor(Combined(sources, size, indexes[..i]), sources[indexes[i]])
  {
    assert indexes[..i + 1] == indexes[..i] + [indexes[i]];
    CombinedAppend(sources, size, indexes[..i], indexes[i]);
  }

  // ----- what the decoder holds -----

  datatype State = State(decoded: map<nat, Bytes>, buffer: map<seq<nat>, Bytes>, meta: Option<Meta>)

  /** Single fragments and combinations of two or more, all of one length. */
  ghost predicate Shaped(decoded: map<nat, Bytes>, buffer: map<seq<nat>, Bytes>, n: nat, size: nat) {
    && (forall i :: i in decoded ==> IsSingle(decoded, i, n, size))
    && (forall k :: k in buffer ==> IsCombination(buffer, k, n, size))
  }

  predicate IsSingle(decoded: map<nat, Bytes>, i: nat, n: nat, size: nat) {
    i in decoded && i < n && |decoded[i]| == size
  }

  predicate IsCombination(buffer: map<seq<nat>, Bytes>, k: seq<nat>, n: nat, size: nat) {
    k in buffer && |k| >= 2 && IsChoice(k, n) && |buffer[k]| == size
  }

  /** Everything held is what the sources make of it. */
  ghost predicate Faithful(decoded: map<nat, Bytes>, buffer: map<seq<nat>, Bytes>, sources: seq<Bytes>, size: nat) {
    && Equal(sources, size)
    && (forall i :: i in decoded ==> i < |sources| && decoded[i] == sources[i])
    && (forall k :: k in buffer ==> Within(k, |sources|) && buffer[k] == Combined(sources, size, k))
  }

  /** No buffered combination still holds a decoded fragment. */
  ghost predicate Peeled(decoded: map<nat, Bytes>, buffer: map<seq<nat>, Bytes>) {
    forall k, i :: k in buffer && i in k ==> i !in decoded
  }

  function AsSet(indexes: seq<nat>): set<nat> {
    set x | x in indexes
  }

  /** `c` is what is left of `k` after taking out some decoded fragments. */
  ghost predicate Reduct(c: seq<nat>, k: seq<nat>, decoded: set<nat>) {
    c == Keep(k, AsSet(k) - AsSet(c)) && AsSet(k) - AsSet(c) <= decoded
  }

  /** What a combination says is not lost: all of it is decoded, or what is left
      of it is buffered. */
  ghost predicate Accounted(k: seq<nat>, decoded: set<nat>, buffered: set<seq<nat>>) {
    AsSet(k) <= decoded || exists c :: c in buffered && Reduct(c, k, decoded)
  }

  ghost predicate AllAccounted(keys: set<seq<nat>>, decoded: map<nat, Bytes>, buffer: map<seq<nat>, Bytes>) {
    forall k :: k in keys ==> Accounted(k, decoded.Keys, buffer.Keys)
  }

  lemma ReductSelf(k: seq<nat>, decoded: set<nat>)
    ensures Reduct(k, k, decoded)
  {
    assert AsSet(k) - AsSet(k) == {};
    KeepAll(k, {});
  }

  lemma ReductStep(c: seq<nat>, k: seq<nat>, x: nat, decoded: set<nat>)
    requires Reduct(c, k, decoded) && x in c && x in decoded
    ensures Reduct(Keep(c, {x}), k, decoded) && AsSet(k) <= decoded + AsSet(Keep(c, {x}))
  {
    var gone := AsSet(k) - AsSet(c);
    KeepTwice(k, gone, {x});
    assert x in Keep(k, gone);
    assert AsSet(k) - AsSet(Keep(c, {x})) == gone + {x};
  }

  lemma MoreDecoded(k: seq<nat>, decoded: set<nat>, more: set<nat>, buffered: set<seq<nat>>, larger: set<seq<nat>>)
    requires Accounted(k, decoded, buffered) && decoded <= more && buffered <= larger
    ensures Accounted(k, more, larger)
  {
    if !(AsSet(k) <= decoded) {
      var c :| c in buffered && Reduct(c, k, decoded);
      assert c in larger && Reduct(c, k, more);
    }
  }

  function ValuesOf(decoded: map<nat, Bytes>, walk: seq<nat>): seq<Bytes>
    requires forall i :: i in walk ==> i in decoded
  {
    seq(|walk|, j requires 0 <= j < |walk| => decoded[walk[j]])
  }

  function Take(data: Bytes, n: nat): Bytes {
    if n <= |data| then data[..n] else data
  }

  /** The message once every fragment is decoded. */
  function MessageOf(s: State): Option<Bytes> {
    if s.meta.None? || |s.decoded| < s.meta.value.simpleFragments then None
    else Some(Take(Concat(ValuesOf(s.decoded, Ascending(s.decoded.Keys))), s.meta.value.messageLength))
  }

  predicate FragmentValid(f: Fragment) {
    f.meta.Verifies() && |f.data| == f.meta.FragmentLength()
  }

  predicate Accepts(s: State, f: Fragment) {
    MessageOf(s).None? && FragmentValid(f) && (s.meta.None? || s.meta == Some(f.meta))
  }

  datatype Outcome = Ok(message: Option<Bytes>) | InvalidFragment | InconsistentFragment

  function OutcomeOf(s: State, f: Fragment, t: State): Outcome {
    if MessageOf(s).Some? then Ok(MessageOf(s))
    else if !FragmentValid(f) then InvalidFragment
    else if s.meta.Some? && s.meta != Some(f.meta) then InconsistentFragment
    else Ok(MessageOf(t))
  }

  /** When a fragment is refused, and how: as invalid if its counts are zero or
      its data is not of the length they give, as inconsistent if another
      message is under way. */
  lemma OutcomeIs(s: State, f: Fragment, t: State)
    requires MessageOf(s).None?
    ensures OutcomeOf(s, f, t) == InvalidFragment <==>
      || f.meta.simpleFragments == 0 || f.meta.messageLength == 0
      || |f.data| != CeilDiv(f.meta.messageLength, f.meta.simpleFragments)
    ensures OutcomeOf(s, f, t) == InconsistentFragment <==>
      && OutcomeOf(s, f, t) != InvalidFragment && s.meta.Some? && s.meta != Some(f.meta)
  {
    if f.meta.simpleFragments > 0 && f.meta.messageLength > 0 {
      CeilDivPositive(f.meta.messageLength, f.meta.simpleFragments);
    }
  }

  /** The fragment says of the sources what it should. */
  ghost predicate Honest(scheme: Scheme, f: Fragment, sources: seq<Bytes>) {
    && f.meta.simpleFragments == |sources| > 0 && Equal(sources, f.meta.FragmentLength())
    && Within(f.Indexes(scheme), |sources|)
    && f.data == Combined(sources, f.meta.FragmentLength(), f.Indexes(scheme))
  }

  ghost predicate StateFaithful(s: State, sources: seq<Bytes>) {
    match s.meta
    case None => true
    case Some(m) => m.simpleFragments > 0 && Faithful(s.decoded, s.buffer, sources, m.FragmentLength())
  }

  ghost predicate StateShaped(s: State) {
    match s.meta
    case None => s.decoded == map[] && s.buffer == map[]
    case Some(m) => m.Verifies() && Shaped(s.decoded, s.buffer, m.simpleFragments, m.FragmentLength())
  }

  /** What one received fragment does: nothing unless it is accepted; then what
      was decoded stays decoded, a simple fragment is and is peeled out of all
      combinations, no combination is lost, and a faithful state stays faithful
      under an honest fragment. */
  ghost predicate Received(scheme: Scheme, s: State, f: Fragment, t: State, sources: seq<Bytes>) {
    if !Accepts(s, f) then t == s else
      && StateShaped(t) && t.meta == Some(f.meta) && s.decoded.Keys <= t.decoded.Keys
      && (f.index < f.meta.simpleFragments ==> f.index in t.decoded && Peeled(t.decoded, t.buffer))
      && AllAccounted(s.buffer.Keys + {f.Indexes(scheme)}, t.decoded, t.buffer)
      && (StateFaithful(s, sources) && Honest(scheme, f, sources) ==> StateFaithful(t, sources))
  }

  // ----- one step of peeling -----

  lemma ReduceShape(k: seq<nat>, x: nat, n: nat)
    requires |k| >= 2 && IsChoice(k, n) && x in k
    ensures IsChoice(Keep(k, {x}), n) && x !in Keep(k, {x})
  {
    KeepDistinct(k, {x});
    KeepWithin(k, {x}, n);
    KeepCount(k, x);
  }

  /** The removal of an entry that must be there. */
  function Without<K, V>(m: map<K, V>, k: K): map<K, V>
    requires k in m
  {
    map j | j in m && j != k :: m[j]
  }

  type Single = (nat, Bytes)

  ghost predicate QueueShaped(queue: seq<Single>, n: nat, size: nat) {
    forall j :: 0 <= j < |queue| ==> queue[j].0 < n && |queue[j].1| == size
  }

  ghost predicate QueueDecoded(queue: seq<Single>, decoded: map<nat, Bytes>) {
    forall j :: 0 <= j < |queue| ==> queue[j].0 in decoded
  }

  ghost predicate QueueFaithful(queue: seq<Single>, sources: seq<Bytes>) {
    forall j :: 0 <= j < |queue| ==> queue[j].0 < |sources| && queue[j].1 == sources[queue[j].0]
  }

  ghost predicate Queued(queue: seq<Single>, i: nat) {
    exists j :: 0 <= j < |queue| && queue[j].0 == i
  }

  /** A decoded fragment still inside a combination is queued. */
  ghost predicate Covered(decoded: map<nat, Bytes>, buffer: map<seq<nat>, Bytes>, queue: seq<Single>) {
    forall k, i :: k in buffer && i in k && i in decoded ==> Queued(queue, i)
  }

  function Pairs(decoded: map<nat, Bytes>, walk: seq<nat>): (queue: seq<Single>)
    requires forall i :: i in walk ==> i in decoded
    ensures |queue| == |walk|
    ensures forall j :: 0 <= j < |walk| ==> walk[j] in decoded && queue[j] == (walk[j], decoded[walk[j]])
  {
    seq(|walk|, j requires 0 <= j < |walk| => (walk[j], decoded[walk[j]]))
  }

  lemma QueueStarts(decoded: map<nat, Bytes>, buffer: map<seq<nat>, Bytes>, walk: seq<nat>, queue: seq<Single>, n: nat,
                    size: nat)
    requires Shaped(decoded, buffer, n, size) && (forall i :: i in walk <==> i in decoded) && |queue| == |walk|
    requires forall j :: 0 <= j < |walk| ==> walk[j] in decoded && queue[j] == (walk[j], decoded[walk[j]])
    ensures QueueShaped(queue, n, size) && QueueDecoded(queue, decoded) && Covered(decoded, buffer, queue)
    ensures forall sources :: Faithful(decoded, buffer, sources, size) ==> QueueFaithful(queue, sources)
  {
    forall j | 0 <= j < |queue| ensures queue[j].0 < n && |queue[j].1| == size {
      assert IsSingle(decoded, walk[j], n, size);
    }
    forall k, i | k in buffer && i in k && i in decoded ensures Queued(queue, i) {
      var j :| 0 <= j < |walk| && walk[j] == i;
      assert queue[j].0 == i;
    }
  }

  /** Part way through taking `x` out of the combinations: `entries` still hold it. */
  ghost predicate Peeling(decoded: map<nat, Bytes>, buffer: map<seq<nat>, Bytes>, queue: seq<Single>,
                          entries: set<seq<nat>>, x: nat, snapshot: map<seq<nat>, Bytes>)
  {
    && (forall k :: k in entries ==> k in buffer && k in snapshot && buffer[k] == snapshot[k])
    && (forall k :: k in buffer && x in k <==> k in entries)
    && (forall k, i :: k in buffer && i in k && i in decoded && i != x ==> Queued(queue, i))
  }

  function LessOne(buffer: map<seq<nat>, Bytes>, k: seq<nat>, x: nat, d: Bytes): map<seq<nat>, Bytes>
    requires k in buffer
  {
    var kept, rest := Keep(k, {x}), Without(buffer, k);
    if |kept| == 1 then rest else rest[kept := d]
  }

  function DecodedBy(decoded: map<nat, Bytes>, k: seq<nat>, x: nat, d: Bytes): map<nat, Bytes> {
    var kept := Keep(k, {x});
    if |kept| == 1 then decoded[kept[0] := d] else decoded
  }

  function QueuedBy(queue: seq<Single>, k: seq<nat>, x: nat, d: Bytes): seq<Single> {
    var kept := Keep(k, {x});
    if |kept| == 1 then queue + [(kept[0], d)] else queue
  }

  lemma StillQueued(queue: seq<Single>, more: seq<Single>, i: nat)
    requires Queued(queue, i)
    ensures Queued(queue + more, i)
  {
    var j :| 0 <= j < |queue| && queue[j].0 == i;
    assert (queue + more)[j].0 == i;
  }

  lemma JustQueued(queue: seq<Single>, last: Single)
    ensures Queued(queue + [last], last.0)
  {
    assert (queue + [last])[|queue|] == last;
  }

  /** Taking `x` out of one combination keeps shapes and lengths. */
  lemma PeelShape(decoded: map<nat, Bytes>, buffer: map<seq<nat>, Bytes>, queue: seq<Single>, k: seq<nat>, x: nat,
                  d: Bytes, n: nat, size: nat)
    requires Shaped(decoded, buffer, n, size) && QueueShaped(queue, n, size) && k in buffer && x in k && |d| == size
    ensures Shaped(DecodedBy(decoded, k, x, d), LessOne(buffer, k, x, d), n, size)
    ensures QueueShaped(QueuedBy(queue, k, x, d), n, size)
    ensures decoded.Keys <= DecodedBy(decoded, k, x, d).Keys
  {
    assert IsCombination(buffer, k, n, size);
    ReduceShape(k, x, n);
    var kept, less, more := Keep(k, {x}), LessOne(buffer, k, x, d), DecodedBy(decoded, k, x, d);
    assert kept[0] in kept;
    forall i | i in more ensures IsSingle(more, i, n, size) {
      assert i in decoded ==> IsSingle(decoded, i, n, size);
    }
    forall c | c in less ensures IsCombination(less, c, n, size) {
      assert c in buffer ==> IsCombination(buffer, c, n, size);
    }
  }

  /** It loses nothing the combinations say. */
  lemma PeelAccounts(decoded: map<nat, Bytes>, buffer: map<seq<nat>, Bytes>, queue: seq<Single>, k: seq<nat>, x: nat,
                     d: Bytes, n: nat, keys: set<seq<nat>>)
    requires k in buffer && x in k && x in decoded && |k| >= 2 && IsChoice(k, n)
    requires QueueDecoded(queue, decoded) && AllAccounted(keys, decoded, buffer)
    ensures AllAccounted(keys, DecodedBy(decoded, k, x, d), LessOne(buffer, k, x, d))
    ensures QueueDecoded(QueuedBy(queue, k, x, d), DecodedBy(decoded, k, x, d))
  {
    ReduceShape(k, x, n);
    forall g | g in keys ensures Accounted(g, DecodedBy(decoded, k, x, d).Keys, LessOne(buffer, k, x, d).Keys) {
      PeelAccount(decoded, buffer, k, x, d, n, g);
    }
  }

  lemma PeelAccount(decoded: map<nat, Bytes>, buffer: map<seq<nat>, Bytes>, k: seq<nat>, x: nat, d: Bytes, n: nat,
                    g: seq<nat>)
    requires k in buffer && x in k && x in decoded && |k| >= 2 && IsChoice(k, n)
    requires Accounted(g, decoded.Keys, buffer.Keys)
    ensures Accounted(g, DecodedBy(decoded, k, x, d).Keys, LessOne(buffer, k, x, d).Keys)
  {
    ReduceShape(k, x, n);
    var kept, more, less := Keep(k, {x}), DecodedBy(decoded, k, x, d), LessOne(buffer, k, x, d);
    assert decoded.Keys <= more.Keys;
    if !(AsSet(g) <= decoded.Keys) {
      var c :| c in buffer.Keys && Reduct(c, g, decoded.Keys);
      if c == k {
        ReductStep(c, g, x, decoded.Keys);
        if |kept| == 1 {
          assert AsSet(kept) <= more.Keys;
        } else {
          assert kept in less.Keys && Reduct(kept, g, more.Keys);
        }
      } else {
        assert c in less.Keys && Reduct(c, g, more.Keys);
      }
    }
  }

  lemma SelfAccounted(decoded: map<nat, Bytes>, buffer: map<seq<nat>, Bytes>)
    ensures AllAccounted(buffer.Keys, decoded, buffer)
  {
    forall k | k in buffer.Keys ensures Accounted(k, decoded.Keys, buffer.Keys) {
      ReductSelf(k, decoded.Keys);
    }
  }

  /** It removes one entry for at most one put back or queued. */
  lemma PeelShrinks(buffer: map<seq<nat>, Bytes>, queue: seq<Single>, k: seq<nat>, x: nat, d: Bytes)
    requires k in buffer
    ensures |QueuedBy(queue, k, x, d)| + |LessOne(buffer, k, x, d)| <= |queue| + |buffer|
  {
    var rest := Without(buffer, k);
    assert rest.Keys == buffer.Keys - {k};
    assert |rest| == |rest.Keys| == |buffer.Keys| - 1;
    var kept := Keep(k, {x});
    assert rest[kept := d].Keys == rest.Keys + {kept};
    assert |rest[kept := d]| == |rest[kept := d].Keys| <= |rest.Keys| + 1;
  }

  /** And leaves `x` only in the entries still to do. */
  lemma PeelOne(decoded: map<nat, Bytes>, buffer: map<seq<nat>, Bytes>, queue: seq<Single>, entries: set<seq<nat>>,
                k: seq<nat>, x: nat, snapshot: map<seq<nat>, Bytes>, d: Bytes, n: nat, size: nat)
    requires Shaped(decoded, buffer, n, size) && Peeling(decoded, buffer, queue, entries, x, snapshot) && k in entries
    ensures Peeling(DecodedBy(decoded, k, x, d), LessOne(buffer, k, x, d), QueuedBy(queue, k, x, d), entries - {k}, x,
                    snapshot)
  {
    assert IsCombination(buffer, k, n, size);
    ReduceShape(k, x, n);
    var kept, less, more := Keep(k, {x}), LessOne(buffer, k, x, d), DecodedBy(decoded, k, x, d);
    assert kept[0] in kept;
    forall c, i | c in less && i in c && i in more && i != x ensures Queued(QueuedBy(queue, k, x, d), i) {
      if |kept| == 1 && i == kept[0] {
        JustQueued(queue, (i, d));
      } else {
        assert c in buffer || (c == kept && i in k);
        assert Queued(queue, i);
        if |kept| == 1 {
          StillQueued(queue, [(kept[0], d)], i);
        }
      }
    }
  }

  /** What is left of a combination says of the sources what it should. */
  lemma ReduceTells(sources: seq<Bytes>, size: nat, k: seq<nat>, x: nat, data: Bytes)
    requires Tells(sources, size, k, data) && Fountain.Distinct(k) && x in k && x < |sources|
    ensures |data| == |sources[x]| && Tells(sources, size, Keep(k, {x}), Xor(data, sources[x]))
  {
    DropOne(sources, size, k, x);
  }

  lemma PeelFaithful(decoded: map<nat, Bytes>, buffer: map<seq<nat>, Bytes>, queue: seq<Single>, k: seq<nat>, x: nat,
                     sources: seq<Bytes>, n: nat, size: nat)
    requires Shaped(decoded, buffer, n, size) && Faithful(decoded, buffer, sources, size)
    requires QueueFaithful(queue, sources) && k in buffer && x in k && x < |sources|
    ensures |buffer[k]| == |sources[x]|
    ensures var d := Xor(buffer[k], sources[x]);
      && Faithful(DecodedBy(decoded, k, x, d), LessOne(buffer, k, x, d), sources, size)
      && QueueFaithful(QueuedBy(queue, k, x, d), sources)
  {
    assert IsCombination(buffer, k, n, size);
    assert Tells(sources, size, k, buffer[k]);
    ReduceTells(sources, size, k, x, buffer[k]);
    KeepFaithful(decoded, buffer, queue, k, x, sources, size, Xor(buffer[k], sources[x]));
  }

  lemma KeepFaithful(decoded: map<nat, Bytes>, buffer: map<seq<nat>, Bytes>, queue: seq<Single>, k: seq<nat>, x: nat,
                     sources: seq<Bytes>, size: nat, d: Bytes)
    requires Faithful(decoded, buffer, sources, size) && QueueFaithful(queue, sources)
    requires k in buffer && Tells(sources, size, Keep(k, {x}), d)
    ensures Faithful(DecodedBy(decoded, k, x, d), LessOne(buffer, k, x, d), sources, size)
    ensures QueueFaithful(QueuedBy(queue, k, x, d), sources)
  {
    LessFaithful(decoded, buffer, k, x, sources, size, d);
    if |Keep(k, {x})| == 1 {
      SingleLeft(sources, size, Keep(k, {x}), d);
      QueueGrows(queue, sources, Keep(k, {x})[0], d);
    }
  }

  lemma LessFaithful(decoded: map<nat, Bytes>, buffer: map<seq<nat>, Bytes>, k: seq<nat>, x: nat, sources: seq<Bytes>,
                     size: nat, d: Bytes)
    requires Faithful(decoded, buffer, sources, size) && k in buffer && Tells(sources, size, Keep(k, {x}), d)
    ensures Faithful(decoded, LessOne(buffer, k, x, d), sources, size)
  {
  }

  lemma QueueGrows(queue: seq<Single>, sources: seq<Bytes>, x: nat, d: Bytes)
    requires QueueFaithful(queue, sources) && x < |sources| && d == sources[x]
    ensures QueueFaithful(queue + [(x, d)], sources)
  {
  }

  class Decoder {
    const scheme: Scheme
    var decoded: map<nat, Bytes>
    var buffer: map<seq<nat>, Bytes>
    var meta: Option<Meta>

    ghost predicate Valid()
      reads this
    {
      scheme.Sound() && StateShaped(AsState())
    }

    function AsState(): State
      reads this
    {
      State(decoded, buffer, meta)
    }

    constructor (scheme: Scheme)
      requires scheme.Sound()
      ensures Valid() && this.scheme == scheme && AsState() == State(map[], map[], None)
    {
      this.scheme := scheme;
      decoded, buffer, meta := map[], map[], None;
    }

    method Message() returns (r: Option<Bytes>)
      requires Valid()
      ensures r == MessageOf(AsState())
    {
      return MessageOf(State(decoded, buffer, meta));
    }

    /** Take in one fragment. */
    method Receive(fragment: Fragment, ghost sources: seq<Bytes>) returns (r: Outcome)
      requires Valid()
      modifies this
      ensures Valid()
      ensures Received(scheme, old(AsState()), fragment, AsState(), sources)
      ensures r == OutcomeOf(old(AsState()), fragment, AsState())
    {
      var message := Message();
      if message.Some? {
        return Ok(message);
      }
      if !fragment.meta.Verifies() || |fragment.data| != fragment.meta.FragmentLength() {
        return InvalidFragment;
      }
      if meta.None? {
        meta := Some(fragment.meta);
      } else if meta != Some(fragment.meta) {
        return InconsistentFragment;
      }
      ghost var n, size := fragment.meta.simpleFragments, fragment.meta.FragmentLength();
      var indexes := fragment.Indexes(scheme);
      ChoiceSound(scheme, n, fragment.meta.checksum, fragment.index);
      if |indexes| == 1 {
        assert indexes == [indexes[0]];
        if Honest(scheme, fragment, sources) {
          CombinedOne(sources, size, indexes[0]);
        }
        ProcessSimple(indexes[0], fragment.data, n, size, sources);
        assert AsSet(indexes) <= decoded.Keys;
      } else {
        ProcessComplex(indexes, fragment.data, n, size, sources);
      }
      message := Message();
      return Ok(message);
    }

    /** Take in a single fragment and peel it, and all decoded by it in turn, out
        of the buffered combinations. */
    method ProcessSimple(index: nat, data: Bytes, ghost n: nat, ghost size: nat, ghost sources: seq<Bytes>)
      requires Shaped(decoded, buffer, n, size) && index < n && |data| == size
      modifies this`decoded, this`buffer
      ensures Shaped(decoded, buffer, n, size) && old(decoded).Keys <= decoded.Keys && index in decoded
      ensures Peeled(decoded, buffer) && AllAccounted(old(buffer).Keys, decoded, buffer)
      ensures old(Faithful(decoded, buffer, sources, size)) && index < |sources| && data == sources[index]
        ==> Faithful(decoded, buffer, sources, size)
    {
      ghost var good := Faithful(decoded, buffer, sources, size) && index < |sources| && data == sources[index];
      decoded := decoded[index := data];
      var walk := Ascending(decoded.Keys);
      var queue := Pairs(decoded, walk);
      QueueStarts(decoded, buffer, walk, queue, n, size);
      SelfAccounted(decoded, buffer);
      while queue != []
        invariant Shaped(decoded, buffer, n, size) && QueueShaped(queue, n, size) && QueueDecoded(queue, decoded)
        invariant AllAccounted(old(buffer).Keys, decoded, buffer)
        invariant old(decoded).Keys <= decoded.Keys && index in decoded
        invariant Covered(decoded, buffer, queue)
        invariant good ==> Faithful(decoded, buffer, sources, size) && QueueFaithful(queue, sources)
        decreases |queue| + |buffer|
      {
        var (x, simple) := queue[|queue| - 1];
        PopLast(queue, decoded, n, size);
        queue := PeelOut(x, simple, queue[..|queue| - 1], n, size, sources, old(buffer).Keys);
      }
    }

    /** Xor a decoded fragment out of every combination that holds it. */
    method PeelOut(x: nat, simple: Bytes, rest: seq<Single>, ghost n: nat, ghost size: nat, ghost sources: seq<Bytes>,
                   ghost keys: set<seq<nat>>) returns (queue: seq<Single>)
      requires Shaped(decoded, buffer, n, size) && QueueShaped(rest, n, size) && |simple| == size
      requires x in decoded && QueueDecoded(rest, decoded) && AllAccounted(keys, decoded, buffer)
      requires Covered(decoded, buffer, rest + [(x, simple)])
      modifies this`decoded, this`buffer
      ensures Shaped(decoded, buffer, n, size) && QueueShaped(queue, n, size) && old(decoded).Keys <= decoded.Keys
      ensures Covered(decoded, buffer, queue) && |queue| + |buffer| <= |rest| + |old(buffer)|
      ensures QueueDecoded(queue, decoded) && AllAccounted(keys, decoded, buffer)
      ensures old(Faithful(decoded, buffer, sources, size)) && QueueFaithful(rest + [(x, simple)], sources)
        ==> Faithful(decoded, buffer, sources, size) && QueueFaithful(queue, sources)
    {
      ghost var good := Faithful(decoded, buffer, sources, size) && QueueFaithful(rest + [(x, simple)], sources);
      LastOf(rest, (x, simple), sources);
      queue := rest;
      var snapshot := buffer;
      var entries := set k | k in buffer && x in k;
      PeelingStarts(decoded, buffer, rest, entries, x, simple);
      while entries != {}
        invariant Shaped(decoded, buffer, n, size) && QueueShaped(queue, n, size) && old(decoded).Keys <= decoded.Keys
        invariant Peeling(decoded, buffer, queue, entries, x, snapshot)
        invariant QueueDecoded(queue, decoded) && AllAccounted(keys, decoded, buffer)
        invariant |queue| + |buffer| <= |rest| + |snapshot|
        invariant good ==> Faithful(decoded, buffer, sources, size) && QueueFaithful(queue, sources)
        decreases entries
      {
        var indexes :| indexes in entries;
        assert IsCombination(buffer, indexes, n, size);
        var data := Xor(snapshot[indexes], simple);
        PeelShape(decoded, buffer, queue, indexes, x, data, n, size);
        PeelShrinks(buffer, queue, indexes, x, data);
        PeelOne(decoded, buffer, queue, entries, indexes, x, snapshot, data, n, size);
        PeelAccounts(decoded, buffer, queue, indexes, x, data, n, keys);
        if good {
          PeelFaithful(decoded, buffer, queue, indexes, x, sources, n, size);
        }
        entries := entries - {indexes};
        buffer := LessOne(buffer, indexes, x, data);
        queue := QueuedBy(queue, indexes, x, data);
        decoded := DecodedBy(decoded, indexes, x, data);
      }
    }

    /** Take in a combination: xor out what is decoded, keep the rest. */
    method ProcessComplex(indexes: seq<nat>, data: Bytes, ghost n: nat, ghost size: nat, ghost sources: seq<Bytes>)
      requires Shaped(decoded, buffer, n, size) && IsChoice(indexes, n) && |data| == size
      modifies this`decoded, this`buffer
      ensures Shaped(decoded, buffer, n, size) && old(decoded).Keys <= decoded.Keys
      ensures AllAccounted(old(buffer).Keys + {indexes}, decoded, buffer)
      ensures old(Faithful(decoded, buffer, sources, size)) && Tells(sources, size, indexes, data)
        ==> Faithful(decoded, buffer, sources, size)
    {
      ghost var good := Faithful(decoded, buffer, sources, size) && Tells(sources, size, indexes, data);
      var toRemove := Decoded(indexes, decoded.Keys);
      SelfAccounted(decoded, buffer);
      if |indexes| == |toRemove| {
        AllRemoved(indexes, decoded.Keys);
        return;
      }
      SomeRemain(indexes, decoded.Keys);
      var rest, sum := Reduce(indexes, toRemove, data, n, size, sources);
      if |rest| == 1 {
        DecodeLeft(decoded, buffer, indexes, rest, sum, n, size, sources);
        decoded := decoded[rest[0] := sum];
      } else {
        BufferLeft(decoded, buffer, indexes, rest, sum, n, size, sources);
        buffer := buffer[rest := sum];
      }
    }

    /** Xor the decoded fragments out of a combination. */
    method Reduce(indexes: seq<nat>, toRemove: seq<nat>, data: Bytes, ghost n: nat, ghost size: nat,
                  ghost sources: seq<Bytes>) returns (rest: seq<nat>, sum: Bytes)
      requires Shaped(decoded, buffer, n, size) && IsChoice(indexes, n) && |data| == size
      requires toRemove == Decoded(indexes, decoded.Keys) && exists x :: x in indexes && !Member(decoded.Keys, x)
      ensures IsChoice(rest, n) && |sum| == size && Reduct(rest, indexes, decoded.Keys)
      ensures Faithful(decoded, buffer, sources, size) && Tells(sources, size, indexes, data)
        ==> Tells(sources, size, rest, sum)
    {
      AllSingles(decoded, buffer, indexes, toRemove, n, size);
      sum := XorOut(toRemove, data, size);
      rest := Keep(indexes, Members(toRemove, |toRemove|));
      RestChosen(indexes, decoded.Keys, toRemove, n);
      RestReduct(indexes, decoded.Keys, toRemove);
      if Faithful(decoded, buffer, sources, size) && Tells(sources, size, indexes, data) {
        XoredTells(decoded, buffer, n, size, sources, indexes, toRemove, |toRemove|, data);
      }
    }

    method XorOut(toRemove: seq<nat>, data: Bytes, ghost size: nat) returns (sum: Bytes)
      requires AllSized(decoded, toRemove, size) && |data| == size
      ensures sum == XoredOut(decoded, toRemove, |toRemove|, data, size)
    {
      sum := data;
      for j := 0 to |toRemove|
        invariant sum == XoredOut(decoded, toRemove, j, data, size)
      {
        sum := Xor(sum, decoded[toRemove[j]]);
      }
    }
  }

  predicate AllSized(decoded: map<nat, Bytes>, s: seq<nat>, size: nat) {
    forall j :: 0 <= j < |s| ==> s[j] in decoded && |decoded[s[j]]| == size
  }

  /** `data` with the first `j` of the fragments xored out. */
  function XoredOut(decoded: map<nat, Bytes>, s: seq<nat>, j: nat, data: Bytes, size: nat): (sum: Bytes)
    requires AllSized(decoded, s, size) && |data| == size && j <= |s|
    ensures |sum| == size
  {
    if j == 0 then data else Xor(XoredOut(decoded, s, j - 1, data, size), decoded[s[j - 1]])
  }

  lemma AllSingles(decoded: map<nat, Bytes>, buffer: map<seq<nat>, Bytes>, indexes: seq<nat>, toRemove: seq<nat>,
                   n: nat, size: nat)
    requires Shaped(decoded, buffer, n, size) && toRemove == Decoded(indexes, decoded.Keys)
    ensures AllSized(decoded, toRemove, size)
  {
    forall j | 0 <= j < |toRemove| ensures toRemove[j] in decoded && |decoded[toRemove[j]]| == size {
      assert toRemove[j] in toRemove;
      assert IsSingle(decoded, toRemove[j], n, size);
    }
  }

  lemma NoneXored(decoded: map<nat, Bytes>, sources: seq<Bytes>, size: nat, indexes: seq<nat>, toRemove: seq<nat>,
                  data: Bytes)
    requires AllSized(decoded, toRemove, size) && Tells(sources, size, indexes, data) && |data| == size
    ensures Tells(sources, size, Keep(indexes, Members(toRemove, 0)), XoredOut(decoded, toRemove, 0, data, size))
  {
    KeepAll(indexes, {});
  }

  lemma {:induction false} XoredTells(decoded: map<nat, Bytes>, buffer: map<seq<nat>, Bytes>, n: nat, size: nat,
                                       sources: seq<Bytes>, indexes: seq<nat>, toRemove: seq<nat>, j: nat, data: Bytes)
    requires Shaped(decoded, buffer, n, size) && Faithful(decoded, buffer, sources, size) && IsChoice(indexes, n)
    requires toRemove == Decoded(indexes, decoded.Keys) && j <= |toRemove| && AllSized(decoded, toRemove, size)
    requires Tells(sources, size, indexes, data) && |data| == size
    ensures Tells(sources, size, Keep(indexes, Members(toRemove, j)), XoredOut(decoded, toRemove, j, data, size))
    decreases j
  {
    if j == 0 {
      NoneXored(decoded, sources, size, indexes, toRemove, data);
    } else {
      XoredTells(decoded, buffer, n, size, sources, indexes, toRemove, j - 1, data);
      ReduceStep(decoded, buffer, n, size, sources, indexes, toRemove, j - 1,
                 XoredOut(decoded, toRemove, j - 1, data, size));
    }
  }

  /** Xoring the next decoded fragment out drops its index. */
  lemma ReduceStep(decoded: map<nat, Bytes>, buffer: map<seq<nat>, Bytes>, n: nat, size: nat, sources: seq<Bytes>,
                   indexes: seq<nat>, toRemove: seq<nat>, j: nat, sum: Bytes)
    requires Shaped(decoded, buffer, n, size) && Faithful(decoded, buffer, sources, size) && IsChoice(indexes, n)
    requires toRemove == Decoded(indexes, decoded.Keys) && j < |toRemove| && toRemove[j] in decoded
    requires Tells(sources, size, Keep(indexes, Members(toRemove, j)), sum)
    ensures Tells(sources, size, Keep(indexes, Members(toRemove, j + 1)), Xor(sum, decoded[toRemove[j]]))
  {
    RemoveNext(indexes, decoded.Keys, toRemove, j);
    assert IsSingle(decoded, toRemove[j], n, size);
    DropOne(sources, size, Keep(indexes, Members(toRemove, j)), toRemove[j]);
  }

  predicate Member(keys: set<nat>, x: nat) {
    x in keys
  }

  /** `data` is what the sources at `indexes` xor to. */
  ghost predicate Tells(sources: seq<Bytes>, size: nat, indexes: seq<nat>, data: Bytes) {
    Equal(sources, size) && Within(indexes, |sources|) && data == Combined(sources, size, indexes)
  }

  /** The first `j` elements. */
  function Members(s: seq<nat>, j: nat): set<nat>
    requires j <= |s|
  {
    if j == 0 then {} else Members(s, j - 1) + {s[j - 1]}
  }

  lemma {:induction false} MembersAre(s: seq<nat>, j: nat)
    requires j <= |s|
    ensures forall x :: x in Members(s, j) <==> exists k :: 0 <= k < j && s[k] == x
    decreases j
  {
    if j > 0 {
      MembersAre(s, j - 1);
      assert s[j - 1] == s[j - 1];
    }
  }

  lemma AllMembers(s: seq<nat>)
    ensures forall x :: x in Members(s, |s|) <==> x in s
  {
    MembersAre(s, |s|);
  }

  lemma SingleLeft(sources: seq<Bytes>, size: nat, rest: seq<nat>, sum: Bytes)
    requires |rest| == 1
    ensures Tells(sources, size, rest, sum) ==> rest[0] < |sources| && sum == sources[rest[0]]
  {
    assert rest == [rest[0]];
    if Tells(sources, size, rest, sum) {
      CombinedOne(sources, size, rest[0]);
    }
  }

  /** The indexes already decoded, in order. */
  function Decoded(indexes: seq<nat>, keys: set<nat>): (r: seq<nat>)
    ensures forall x :: x in r <==> x in indexes && x in keys
  {
    var undecoded := (set x | x in indexes) - keys;
    Keep(indexes, undecoded)
  }

  lemma SomeRemain(indexes: seq<nat>, keys: set<nat>)
    requires |indexes| != |Decoded(indexes, keys)|
    ensures exists x :: x in indexes && !Member(keys, x)
  {
    if forall x :: x in indexes ==> Member(keys, x) {
      KeepAll(indexes, (set x | x in indexes) - keys);
    }
  }

  /** The next one to remove was decoded and is still there. */
  lemma RemoveNext(indexes: seq<nat>, keys: set<nat>, toRemove: seq<nat>, j: nat)
    requires Fountain.Distinct(indexes) && toRemove == Decoded(indexes, keys) && j < |toRemove|
    ensures var x, kept := toRemove[j], Keep(indexes, Members(toRemove, j));
      && x in keys && x in kept && Fountain.Distinct(kept)
      && Keep(kept, {x}) == Keep(indexes, Members(toRemove, j + 1))
  {
    assert toRemove[j] in toRemove;
    NotRemovedYet(indexes, keys, toRemove, j);
    KeepDistinct(indexes, Members(toRemove, j));
    RemoveOne(indexes, toRemove, j);
  }

  lemma NotRemovedYet(indexes: seq<nat>, keys: set<nat>, toRemove: seq<nat>, j: nat)
    requires Fountain.Distinct(indexes) && toRemove == Decoded(indexes, keys) && j < |toRemove|
    ensures toRemove[j] !in Members(toRemove, j)
  {
    MembersAre(toRemove, j);
    KeepDistinct(indexes, (set y | y in indexes) - keys);
  }

  lemma RemoveOne(indexes: seq<nat>, toRemove: seq<nat>, j: nat)
    requires j < |toRemove|
    ensures Keep(Keep(indexes, Members(toRemove, j)), {toRemove[j]}) == Keep(indexes, Members(toRemove, j + 1))
  {
    KeepTwice(indexes, Members(toRemove, j), {toRemove[j]});
  }

  lemma RestChosen(indexes: seq<nat>, keys: set<nat>, toRemove: seq<nat>, n: nat)
    requires IsChoice(indexes, n) && toRemove == Decoded(indexes, keys) && exists x :: x in indexes && !Member(keys, x)
    ensures IsChoice(Keep(indexes, Members(toRemove, |toRemove|)), n)
  {
    var gone := Members(toRemove, |toRemove|);
    AllMembers(toRemove);
    var x :| x in indexes && !Member(keys, x);
    assert x in Keep(indexes, gone);
    KeepDistinct(indexes, gone);
    KeepWithin(indexes, gone, n);
  }

  lemma RestReduct(indexes: seq<nat>, keys: set<nat>, toRemove: seq<nat>)
    requires toRemove == Decoded(indexes, keys)
    ensures Reduct(Keep(indexes, Members(toRemove, |toRemove|)), indexes, keys)
  {
    var gone := Members(toRemove, |toRemove|);
    AllMembers(toRemove);
    assert AsSet(indexes) - AsSet(Keep(indexes, gone)) == gone;
  }

  /** A combination whose indexes are all to be removed is all decoded. */
  lemma AllRemoved(indexes: seq<nat>, keys: set<nat>)
    requires |indexes| == |Decoded(indexes, keys)|
    ensures AsSet(indexes) <= keys
  {
    forall x | x in indexes ensures x in keys {
      if x !in keys {
        KeepLoses(indexes, AsSet(indexes) - keys, x);
      }
    }
  }

  lemma {:induction false} KeepLoses(indexes: seq<nat>, dropped: set<nat>, x: nat)
    requires x in indexes && x in dropped
    ensures |Keep(indexes, dropped)| < |indexes|
    decreases |indexes|
  {
    var last := |indexes| - 1;
    if indexes[last] != x {
      assert x in indexes[..last];
      KeepLoses(indexes[..last], dropped, x);
    }
  }

  /** One fragment left of a combination is decoded. */
  lemma DecodeLeft(decoded: map<nat, Bytes>, buffer: map<seq<nat>, Bytes>, indexes: seq<nat>, rest: seq<nat>,
                   d: Bytes, n: nat, size: nat, sources: seq<Bytes>)
    requires Shaped(decoded, buffer, n, size) && IsChoice(rest, n) && |rest| == 1 && |d| == size
    requires Reduct(rest, indexes, decoded.Keys) && AllAccounted(buffer.Keys, decoded, buffer)
    ensures Shaped(decoded[rest[0] := d], buffer, n, size) && decoded.Keys <= decoded[rest[0] := d].Keys
    ensures AllAccounted(buffer.Keys + {indexes}, decoded[rest[0] := d], buffer)
    ensures Faithful(decoded, buffer, sources, size) && Tells(sources, size, rest, d)
      ==> Faithful(decoded[rest[0] := d], buffer, sources, size)
  {
    DecodeFaithful(decoded, buffer, rest, d, size, sources);
    DecodeShape(decoded, buffer, rest[0], d, n, size);
    DecodeAccounts(decoded, buffer, indexes, rest, d);
  }

  lemma DecodeFaithful(decoded: map<nat, Bytes>, buffer: map<seq<nat>, Bytes>, rest: seq<nat>, d: Bytes, size: nat,
                       sources: seq<Bytes>)
    requires |rest| == 1
    ensures Faithful(decoded, buffer, sources, size) && Tells(sources, size, rest, d)
      ==> Faithful(decoded[rest[0] := d], buffer, sources, size)
  {
    SingleLeft(sources, size, rest, d);
  }

  /** Two or more left are buffered. */
  lemma BufferLeft(decoded: map<nat, Bytes>, buffer: map<seq<nat>, Bytes>, indexes: seq<nat>, rest: seq<nat>,
                   d: Bytes, n: nat, size: nat, sources: seq<Bytes>)
    requires Shaped(decoded, buffer, n, size) && IsChoice(rest, n) && |rest| >= 2 && |d| == size
    requires Reduct(rest, indexes, decoded.Keys) && AllAccounted(buffer.Keys, decoded, buffer)
    ensures Shaped(decoded, buffer[rest := d], n, size)
    ensures AllAccounted(buffer.Keys + {indexes}, decoded, buffer[rest := d])
    ensures Faithful(decoded, buffer, sources, size) && Tells(sources, size, rest, d)
      ==> Faithful(decoded, buffer[rest := d], sources, size)
  {
    BufferShape(decoded, buffer, rest, d, n, size);
    BufferAccounts(decoded, buffer, indexes, rest, d);
  }

  lemma DecodeAccounts(decoded: map<nat, Bytes>, buffer: map<seq<nat>, Bytes>, indexes: seq<nat>, rest: seq<nat>,
                       d: Bytes)
    requires Reduct(rest, indexes, decoded.Keys) && |rest| == 1 && AllAccounted(buffer.Keys, decoded, buffer)
    ensures AllAccounted(buffer.Keys + {indexes}, decoded[rest[0] := d], buffer)
  {
    var more := decoded[rest[0] := d];
    assert rest == [rest[0]] && AsSet(rest) <= more.Keys;
    forall k | k in buffer.Keys ensures Accounted(k, more.Keys, buffer.Keys) {
      MoreDecoded(k, decoded.Keys, more.Keys, buffer.Keys, buffer.Keys);
    }
  }

  lemma BufferAccounts(decoded: map<nat, Bytes>, buffer: map<seq<nat>, Bytes>, indexes: seq<nat>, rest: seq<nat>,
                       d: Bytes)
    requires Reduct(rest, indexes, decoded.Keys) && AllAccounted(buffer.Keys, decoded, buffer)
    ensures AllAccounted(buffer.Keys + {indexes}, decoded, buffer[rest := d])
  {
    var more := buffer[rest := d];
    assert rest in more.Keys;
    forall k | k in buffer.Keys ensures Accounted(k, decoded.Keys, more.Keys) {
      MoreDecoded(k, decoded.Keys, decoded.Keys, buffer.Keys, more.Keys);
    }
  }

  lemma DecodeShape(decoded: map<nat, Bytes>, buffer: map<seq<nat>, Bytes>, i: nat, d: Bytes, n: nat, size: nat)
    requires Shaped(decoded, buffer, n, size) && i < n && |d| == size
    ensures Shaped(decoded[i := d], buffer, n, size)
  {
    var more := decoded[i := d];
    forall j | j in more ensures IsSingle(more, j, n, size) {
      if j != i {
        assert IsSingle(decoded, j, n, size);
      }
    }
  }

  lemma BufferShape(decoded: map<nat, Bytes>, buffer: map<seq<nat>, Bytes>, k: seq<nat>, d: Bytes, n: nat, size: nat)
    requires Shaped(decoded, buffer, n, size) && |k| >= 2 && IsChoice(k, n) && |d| == size
    ensures Shaped(decoded, buffer[k := d], n, size)
  {
    var more := buffer[k := d];
    forall c | c in more ensures IsCombination(more, c, n, size) {
      if c != k {
        assert IsCombination(buffer, c, n, size);
      }
    }
  }

  lemma PopLast(queue: seq<Single>, decoded: map<nat, Bytes>, n: nat, size: nat)
    requires queue != [] && QueueShaped(queue, n, size) && QueueDecoded(queue, decoded)
    ensures var (x, simple), rest := queue[|queue| - 1], queue[..|queue| - 1];
      && rest + [(x, simple)] == queue && QueueShaped(rest, n, size) && QueueDecoded(rest, decoded)
      && x in decoded && x < n && |simple| == size
  {
  }

  lemma LastOf(rest: seq<Single>, last: Single, sources: seq<Bytes>)
    ensures (rest + [last])[|rest|] == last
    ensures QueueFaithful(rest + [last], sources) ==>
      QueueFaithful(rest, sources) && last.0 < |sources| && last.1 == sources[last.0]
  {
    assert forall j :: 0 <= j < |rest| ==> rest[j] == (rest + [last])[j];
  }

  lemma PeelingStarts(decoded: map<nat, Bytes>, buffer: map<seq<nat>, Bytes>, rest: seq<Single>,
                      entries: set<seq<nat>>, x: nat, simple: Bytes)
    requires entries == (set k | k in buffer && x in k) && Covered(decoded, buffer, rest + [(x, simple)])
    ensures Peeling(decoded, buffer, rest, entries, x, buffer)
  {
    forall k, i | k in buffer && i in k && i in decoded && i != x ensures Queued(rest, i) {
      assert Queued(rest + [(x, simple)], i);
      var j :| 0 <= j < |rest| + 1 && (rest + [(x, simple)])[j].0 == i;
      assert j < |rest| && rest[j].0 == i;
    }
  }
}

/** Whole transmissions: fragments of one encoder in any order, lost or
    repeated, against the decoder that receives them. */
module Transmission {
  import opened Ordered
  import opened Fountain
  import opened Peeling

  const Blank := State(map[], map[], None)

  /** `states` are a decoder's states while it receives the fragments the encoder
      emits at `indexes`. */
  ghost predicate IsTransmission(scheme: Scheme, message: Bytes, max: nat, indexes: seq<nat>, states: seq<State>)
    requires message != [] && max > 0 && scheme.Sound()
  {
    && |states| == |indexes| + 1 && states[0] == Blank
    && forall k {:trigger StepAt(scheme, message, max, indexes, states, k)} ::
         0 <= k < |indexes| ==> StepAt(scheme, message, max, indexes, states, k)
  }

  ghost predicate StepAt(scheme: Scheme, message: Bytes, max: nat, indexes: seq<nat>, states: seq<State>, k: nat)
    requires message != [] && max > 0 && scheme.Sound() && k < |indexes| && |states| == |indexes| + 1
  {
    Takes(scheme, message, max, states[k], indexes[k], states[k + 1])
  }

  /** From `s` the decoder reaches `t` on the fragment emitted at `index`. */
  ghost predicate Takes(scheme: Scheme, message: Bytes, max: nat, s: State, index: nat, t: State)
    requires message != [] && max > 0 && scheme.Sound()
  {
    Received(scheme, s, Encoded(scheme, message, max, index), t, Parts(message, max))
  }

  lemma StepTaken(scheme: Scheme, message: Bytes, max: nat, indexes: seq<nat>, states: seq<State>, k: nat)
    requires message != [] && max > 0 && scheme.Sound()
    requires IsTransmission(scheme, message, max, indexes, states) && 0 < k <= |indexes|
    ensures Takes(scheme, message, max, states[k - 1], indexes[k - 1], states[k])
  {
    assert StepAt(scheme, message, max, indexes, states, k - 1);
  }

  /** A message of less than 4 GiB keeps its counts, and its fragments have the
      length the decoder asks for. */
  lemma EncodedAccepted(scheme: Scheme, message: Bytes, max: nat, index: nat)
    requires message != [] && max > 0 && scheme.Sound() && |message| < U32
    ensures var f, parts := Encoded(scheme, message, max, index), Parts(message, max);
      && f.meta == Meta(|parts|, |message|, scheme.checksumOf(message)) && f.meta.Verifies()
      && FragmentValid(f) && Honest(scheme, f, parts)
  {
    PartsShape(message, max);
    ChoiceSound(scheme, |Parts(message, max)|, scheme.checksumOf(message), index);
  }

  /** The decoder's state is faithful to the message, with its metadata. */
  ghost predicate OnTrack(scheme: Scheme, message: Bytes, max: nat, s: State)
    requires message != [] && max > 0
  {
    && StateShaped(s) && StateFaithful(s, Parts(message, max))
    && (s.meta.Some? ==> s.meta.value == Meta(|Parts(message, max)|, |message|, scheme.checksumOf(message)))
  }

  lemma {:induction false} StaysOnTrack(scheme: Scheme, message: Bytes, max: nat, indexes: seq<nat>, states: seq<State>,
                                        k: nat)
    requires message != [] && max > 0 && scheme.Sound() && |message| < U32
    requires IsTransmission(scheme, message, max, indexes, states) && k <= |indexes|
    ensures OnTrack(scheme, message, max, states[k])
    decreases k
  {
    if k > 0 {
      StaysOnTrack(scheme, message, max, indexes, states, k - 1);
      EncodedAccepted(scheme, message, max, indexes[k - 1]);
      StepTaken(scheme, message, max, indexes, states, k);
    }
  }

  // ----- reading the message off -----

  lemma {:induction false} AtLeastIndex(walk: seq<nat>, j: nat)
    requires j < |walk| && forall a, b :: 0 <= a < b < |walk| ==> walk[a] < walk[b]
    ensures walk[j] >= j
    decreases j
  {
    if j > 0 {
      AtLeastIndex(walk, j - 1);
    }
  }

  lemma {:induction false} AtMostIndex(walk: seq<nat>, n: nat, j: nat)
    requires j < |walk| == n && (forall a, b :: 0 <= a < b < |walk| ==> walk[a] < walk[b])
    requires forall a :: 0 <= a < n ==> walk[a] < n
    ensures walk[j] <= j
    decreases n - j
  {
    if j + 1 < n {
      AtMostIndex(walk, n, j + 1);
    }
  }

  /** Everything below `n` in ascending order is everything in place. */
  lemma AscendingAll(s: set<nat>, n: nat)
    requires |s| == n && forall i :: i in s ==> i < n
    ensures |Ascending(s)| == n && forall j :: 0 <= j < n ==> Ascending(s)[j] == j
  {
    var walk := Ascending(s);
    AscendingRises(s);
    forall a | 0 <= a < n ensures walk[a] < n {
      assert walk[a] in walk;
    }
    forall j | 0 <= j < n ensures walk[j] == j {
      AtLeastIndex(walk, j);
      AtMostIndex(walk, n, j);
    }
  }

  /** A message an on-track decoder returns is the original. */
  lemma ReturnedIsOriginal(scheme: Scheme, message: Bytes, max: nat, s: State)
    requires message != [] && max > 0 && OnTrack(scheme, message, max, s) && MessageOf(s).Some?
    ensures MessageOf(s) == Some(message)
  {
    var parts := Parts(message, max);
    PartsShape(message, max);
    forall i | i in s.decoded.Keys ensures i < |parts| {
      assert i in s.decoded;
    }
    SubsetSize(s.decoded.Keys, Below(|parts|));
    assert |s.decoded| == |s.decoded.Keys|;
    AscendingAll(s.decoded.Keys, |parts|);
    assert ValuesOf(s.decoded, Ascending(s.decoded.Keys)) == parts;
  }

  /** No loss, reordering or repetition makes the decoder return anything but
      the original, if the message is below 4 GiB. */
  lemma NeverCorrupted(scheme: Scheme, message: Bytes, max: nat, indexes: seq<nat>, states: seq<State>, k: nat)
    requires message != [] && max > 0 && scheme.Sound() && |message| < U32
    requires IsTransmission(scheme, message, max, indexes, states) && k <= |indexes|
    ensures MessageOf(states[k]).Some? ==> MessageOf(states[k]) == Some(message)
  {
    StaysOnTrack(scheme, message, max, indexes, states, k);
    if MessageOf(states[k]).Some? {
      ReturnedIsOriginal(scheme, message, max, states[k]);
    }
  }

  /** Fragment `i` is decoded, or the message is out. */
  predicate Has(s: State, i: nat) {
    MessageOf(s).Some? || i in s.decoded
  }

  lemma ReceiveKeeps(scheme: Scheme, message: Bytes, max: nat, s: State, index: nat, t: State)
    requires message != [] && max > 0 && scheme.Sound() && |message| < U32 && OnTrack(scheme, message, max, s)
    requires Takes(scheme, message, max, s, index, t)
    ensures index < |Parts(message, max)| ==> Has(t, index)
    ensures forall i {:trigger Has(t, i)} :: Has(s, i) ==> Has(t, i)
  {
    EncodedAccepted(scheme, message, max, index);
  }

  lemma StepKeeps(scheme: Scheme, message: Bytes, max: nat, indexes: seq<nat>, states: seq<State>, k: nat, i: nat)
    requires message != [] && max > 0 && scheme.Sound() && |message| < U32
    requires IsTransmission(scheme, message, max, indexes, states)
    requires 0 < k <= |indexes| && i < |Parts(message, max)|
    requires Has(states[k - 1], i) || indexes[k - 1] == i
    ensures Has(states[k], i)
  {
    StaysOnTrack(scheme, message, max, indexes, states, k - 1);
    StepTaken(scheme, message, max, indexes, states, k);
    ReceiveKeeps(scheme, message, max, states[k - 1], indexes[k - 1], states[k]);
  }

  /** A simple fragment once received stays decoded, or the message is out. */
  lemma {:induction false} SimpleKept(scheme: Scheme, message: Bytes, max: nat, indexes: seq<nat>, states: seq<State>,
                                      j: nat, k: nat)
    requires message != [] && max > 0 && scheme.Sound() && |message| < U32
    requires IsTransmission(scheme, message, max, indexes, states)
    requires j < k <= |indexes| && indexes[j] < |Parts(message, max)|
    ensures Has(states[k], indexes[j])
    decreases k
  {
    if j < k - 1 {
      SimpleKept(scheme, message, max, indexes, states, j, k - 1);
    }
    StepKeeps(scheme, message, max, indexes, states, k, indexes[j]);
  }

  /** All simple fragments are among those received. */
  predicate Mentions(indexes: seq<nat>, n: nat) {
    forall i :: 0 <= i < n ==> i in indexes
  }

  lemma PlaceOf(indexes: seq<nat>, n: nat, i: nat) returns (j: nat)
    requires Mentions(indexes, n) && i < n
    ensures j < |indexes| && indexes[j] == i
  {
    assert i in indexes;
    j :| 0 <= j < |indexes| && indexes[j] == i;
  }

  lemma AllDecodedReturns(s: State, n: nat)
    requires n > 0 && StateShaped(s) && (s.meta.Some? ==> s.meta.value.simpleFragments == n)
    requires forall i :: 0 <= i < n ==> Has(s, i)
    ensures MessageOf(s).Some?
  {
    assert Has(s, 0);
    if MessageOf(s).None? && s.meta.Some? {
      forall i | i in Below(n) ensures i in s.decoded.Keys {
        assert Has(s, i);
      }
      SubsetSize(Below(n), s.decoded.Keys);
    }
  }

  /** All simple fragments are enough, in any order and among anything else. */
  lemma SimpleFragmentsSuffice(scheme: Scheme, message: Bytes, max: nat, indexes: seq<nat>, states: seq<State>)
    requires message != [] && max > 0 && scheme.Sound() && |message| < U32
    requires IsTransmission(scheme, message, max, indexes, states)
    requires Mentions(indexes, |Parts(message, max)|)
    ensures MessageOf(states[|indexes|]) == Some(message)
  {
    var s, n := states[|indexes|], |Parts(message, max)|;
    PartsShape(message, max);
    StaysOnTrack(scheme, message, max, indexes, states, |indexes|);
    forall i | 0 <= i < n ensures Has(s, i) {
      var j := PlaceOf(indexes, n, i);
      SimpleKept(scheme, message, max, indexes, states, j, |indexes|);
    }
    AllDecodedReturns(s, n);
    ReturnedIsOriginal(scheme, message, max, s);
  }

  // ----- nothing received is lost -----

  /** What is left of what is left. */
  lemma ReductOfReduct(c: seq<nat>, b: seq<nat>, k: seq<nat>, decoded: set<nat>)
    requires Reduct(b, k, decoded) && Reduct(c, b, decoded)
    ensures Reduct(c, k, decoded)
  {
    var first, second := AsSet(k) - AsSet(b), AsSet(b) - AsSet(c);
    KeepTwice(k, first, second);
    forall x | x in c ensures x in b && x in k {
      assert x in Keep(b, second);
      assert x in Keep(k, first);
    }
    assert first + second == AsSet(k) - AsSet(c) by {
      forall x | x in b ensures x in k {
        assert x in Keep(k, first);
      }
    }
  }

  lemma StaysAccounted(k: seq<nat>, s: State, t: State)
    requires Accounted(k, s.decoded.Keys, s.buffer.Keys) && s.decoded.Keys <= t.decoded.Keys
    requires AllAccounted(s.buffer.Keys, t.decoded, t.buffer)
    ensures Accounted(k, t.decoded.Keys, t.buffer.Keys)
  {
    if !(AsSet(k) <= s.decoded.Keys) {
      var b :| b in s.buffer.Keys && Reduct(b, k, s.decoded.Keys);
      assert Accounted(b, t.decoded.Keys, t.buffer.Keys) && Reduct(b, k, t.decoded.Keys);
      if AsSet(b) <= t.decoded.Keys {
        assert AsSet(k) <= t.decoded.Keys;
      } else {
        var c :| c in t.buffer.Keys && Reduct(c, b, t.decoded.Keys);
        ReductOfReduct(c, b, k, t.decoded.Keys);
      }
    }
  }

  /** The combination is accounted for, or the message is out. */
  ghost predicate Kept(s: State, k: seq<nat>) {
    MessageOf(s).Some? || Accounted(k, s.decoded.Keys, s.buffer.Keys)
  }

  lemma ReceiveLosesNothing(scheme: Scheme, message: Bytes, max: nat, s: State, index: nat, t: State, k: seq<nat>)
    requires message != [] && max > 0 && scheme.Sound() && |message| < U32 && OnTrack(scheme, message, max, s)
    requires Takes(scheme, message, max, s, index, t)
    ensures Kept(t, Encoded(scheme, message, max, index).Indexes(scheme))
    ensures Kept(s, k) ==> Kept(t, k)
  {
    EncodedAccepted(scheme, message, max, index);
    var f := Encoded(scheme, message, max, index);
    if Accepts(s, f) && Accounted(k, s.decoded.Keys, s.buffer.Keys) {
      assert AllAccounted(s.buffer.Keys, t.decoded, t.buffer);
      StaysAccounted(k, s, t);
    }
  }

  /** Nothing received is lost: at any later time all of its fragments are
      decoded, or what is left of the combination is buffered, or the message
      is out. */
  lemma {:induction false} NothingLost(scheme: Scheme, message: Bytes, max: nat, indexes: seq<nat>, states: seq<State>,
                                       j: nat, k: nat)
    requires message != [] && max > 0 && scheme.Sound() && |message| < U32
    requires IsTransmission(scheme, message, max, indexes, states) && j < k <= |indexes|
    ensures Kept(states[k], Encoded(scheme, message, max, indexes[j]).Indexes(scheme))
    decreases k
  {
    var f := Encoded(scheme, message, max, indexes[j]);
    StaysOnTrack(scheme, message, max, indexes, states, k - 1);
    StepTaken(scheme, message, max, indexes, states, k);
    ReceiveLosesNothing(scheme, message, max, states[k - 1], indexes[k - 1], states[k], f.Indexes(scheme));
    if j < k - 1 {
      NothingLost(scheme, message, max, indexes, states, j, k - 1);
    }
  }

  lemma {:induction false} KeepNone(k: seq<nat>, dropped: set<nat>)
    requires AsSet(k) <= dropped
    ensures Keep(k, dropped) == []
    decreases |k|
  {
    if k != [] {
      var last := |k| - 1;
      assert k[last] in AsSet(k);
      assert AsSet(k[..last]) <= AsSet(k);
      KeepNone(k[..last], dropped);
    }
  }

  /** Once peeled, no combination received is one fragment short of telling
      something new: what of it is not decoded is nothing, or two or more. */
  lemma PeeledIsComplete(decoded: map<nat, Bytes>, buffer: map<seq<nat>, Bytes>, n: nat, size: nat, k: seq<nat>)
    requires Shaped(decoded, buffer, n, size) && Peeled(decoded, buffer)
    requires Accounted(k, decoded.Keys, buffer.Keys)
    ensures |Keep(k, decoded.Keys)| != 1
  {
    if AsSet(k) <= decoded.Keys {
      KeepNone(k, decoded.Keys);
    } else {
      var c :| c in buffer.Keys && Reduct(c, k, decoded.Keys);
      assert IsCombination(buffer, c, n, size);
      var gone := AsSet(k) - AsSet(c);
      KeepTwice(k, gone, decoded.Keys);
      assert gone + decoded.Keys == decoded.Keys;
      KeepAll(c, decoded.Keys);
    }
  }

  // ----- the 32-bit counts -----

  ghost predicate Truncated(s: State, length: nat) {
    s.meta.Some? ==> s.meta.value.messageLength == length % U32
  }

  lemma {:induction false} StaysTruncated(scheme: Scheme, message: Bytes, max: nat, indexes: seq<nat>,
                                          states: seq<State>, k: nat)
    requires message != [] && max > 0 && scheme.Sound()
    requires IsTransmission(scheme, message, max, indexes, states) && k <= |indexes|
    ensures Truncated(states[k], |message|)
    decreases k
  {
    if k > 0 {
      StaysTruncated(scheme, message, max, indexes, states, k - 1);
      StepTaken(scheme, message, max, indexes, states, k);
    }
  }

  /** A decoder returns at most as many bytes as the truncated length says. */
  lemma OversizedNeverReturned(scheme: Scheme, message: Bytes, max: nat, indexes: seq<nat>, states: seq<State>, k: nat)
    requires message != [] && max > 0 && scheme.Sound() && |message| >= U32
    requires IsTransmission(scheme, message, max, indexes, states) && k <= |indexes|
    ensures MessageOf(states[k]) != Some(message)
  {
    StaysTruncated(scheme, message, max, indexes, states, k);
  }

  /** After all simple fragments, among others and in any order, the decoder
      has the original exactly if the message is below 4 GiB. */
  lemma DeliveredIffBelow4GiB(scheme: Scheme, message: Bytes, max: nat, indexes: seq<nat>, states: seq<State>)
    requires message != [] && max > 0 && scheme.Sound()
    requires IsTransmission(scheme, message, max, indexes, states)
    requires Mentions(indexes, |Parts(message, max)|)
    ensures MessageOf(states[|indexes|]) == Some(message) <==> |message| < U32
  {
    if |message| < U32 {
      SimpleFragmentsSuffice(scheme, message, max, indexes, states);
    } else {
      OversizedNeverReturned(scheme, message, max, indexes, states, |indexes|);
    }
  }

  /** A one-fragment message is out once its fragment is decoded, cut to length. */
  lemma TakenForWhole(s: State, meta: Meta)
    requires s.meta == Some(meta) && meta.simpleFragments == 1 && 0 in s.decoded
    ensures MessageOf(s).Some? && |MessageOf(s).value| <= meta.messageLength
  {
    SubsetSize({0}, s.decoded.Keys);
    assert |s.decoded| == |s.decoded.Keys|;
  }

  /** The truncation is not always caught as an invalid fragment: one byte more
      than 4 GiB in one-byte fragments, and the first fragment alone is taken
      for the whole message. */
  lemma OversizedIsReturnedWrong(scheme: Scheme, message: Bytes)
    requires scheme.Sound() && |message| == U32 + 1
    ensures FragmentValid(Encoded(scheme, message, 1, 0))
    ensures Encoded(scheme, message, 1, 0).meta.simpleFragments == 1
    ensures forall t, sources :: Received(scheme, Blank, Encoded(scheme, message, 1, 0), t, sources) ==>
      MessageOf(t).Some? && MessageOf(t) != Some(message)
  {
    var f := Encoded(scheme, message, 1, 0);
    assert Fountain.FragmentLength(|message|, 1) == 1;
    PartsShape(message, 1);
    forall t, sources | Received(scheme, Blank, f, t, sources)
      ensures MessageOf(t).Some? && MessageOf(t) != Some(message)
    {
      assert Accepts(Blank, f);
      TakenForWhole(t, f.meta);
    }
  }
}

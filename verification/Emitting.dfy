/** The emission side: the queue loop against the sweep it computes, the channel
    against the order it carries, and our own rounds still to be ordered. */
module Emitting {
  import opened Ordered
  import opened Dag
  import opened Election
  import opened Ordering
  import opened Extension
  import opened Protocol
  import opened Storing
  import opened Deciding

  /** What sending the payloads of `order` puts on the channel. */
  function Sent(table: Units, data: map<UnitHash, seq<Item>>, order: seq<UnitHash>): seq<Emission>
    requires forall h :: h in order ==> h in table && h in data
  {
    if order == [] then [] else
      var last := order[|order| - 1];
      Sent(table, data, order[..|order| - 1]) + UnitSent(table[last], data[last])
  }

  function UnitSent(u: Unit, data: seq<Item>): seq<Emission> {
    seq(|data|, i requires 0 <= i < |data| => (u.round, u.creator, data[i]))
  }

  /** The payloads of the order, one after the other. */
  function Payloads(data: map<UnitHash, seq<Item>>, order: seq<UnitHash>): seq<Item>
    requires forall h :: h in order ==> h in data
  {
    if order == [] then [] else
      var last := order[|order| - 1];
      Payloads(data, order[..|order| - 1]) + data[last]
  }

  /** The unit each item of the payloads is from. */
  function Origins(data: map<UnitHash, seq<Item>>, order: seq<UnitHash>): seq<UnitHash>
    requires forall h :: h in order ==> h in data
  {
    if order == [] then [] else
      var last := order[|order| - 1];
      Origins(data, order[..|order| - 1]) + seq(|data[last]|, _ => last)
  }

  /** The channel carries the payloads item by item in their order, each with
      the round and the creator of its unit. */
  lemma {:induction false} SentCarries(table: Units, data: map<UnitHash, seq<Item>>, order: seq<UnitHash>)
    requires forall h :: h in order ==> h in table && h in data
    ensures |Sent(table, data, order)| == |Payloads(data, order)| == |Origins(data, order)|
    ensures forall i :: 0 <= i < |Sent(table, data, order)| ==> CarriesAt(table, data, order, i)
    decreases |order|
  {
    if order != [] {
      SentCarries(table, data, order[..|order| - 1]);
      var before, last := Sent(table, data, order[..|order| - 1]), order[|order| - 1];
      forall i | 0 <= i < |Sent(table, data, order)| ensures CarriesAt(table, data, order, i) {
        if i < |before| {
          assert CarriesAt(table, data, order[..|order| - 1], i);
        } else {
          assert UnitSent(table[last], data[last])[i - |before|] ==
            (table[last].round, table[last].creator, data[last][i - |before|]);
        }
      }
    }
  }

  ghost predicate CarriesAt(table: Units, data: map<UnitHash, seq<Item>>, order: seq<UnitHash>, i: nat)
    requires forall h :: h in order ==> h in table && h in data
  {
    && i < |Sent(table, data, order)| == |Payloads(data, order)| == |Origins(data, order)|
    && var origin := Origins(data, order)[i];
       origin in order &&
       Sent(table, data, order)[i] == (table[origin].round, table[origin].creator, Payloads(data, order)[i])
  }

  lemma {:induction false} SentStable(table: Units, data: map<UnitHash, seq<Item>>,
                                      table': Units, data': map<UnitHash, seq<Item>>, order: seq<UnitHash>)
    requires forall h :: h in order ==>
      h in table && h in data && h in table' && h in data' && table[h] == table'[h] && data[h] == data'[h]
    ensures Sent(table, data, order) == Sent(table', data', order)
    decreases |order|
  {
    if order != [] {
      SentStable(table, data, table', data', order[..|order| - 1]);
    }
  }

  /** Rounds of own units that carry items and are not emitted. */
  function Pending(id: NodeId, table: Units, emitted: set<UnitHash>): set<Round> {
    set h | h in table && table[h].creator == id && table[h].data.Some? && h !in emitted :: table[h].round
  }

  /** The channel carries the payloads of the causal order, and our own rounds
      still to be ordered are the pending ones. */
  ghost predicate EmissionSound(id: NodeId, table: Units, data: map<UnitHash, seq<Item>>, us: Units, p: Progress,
                                emitted: set<UnitHash>, ordered: seq<Emission>, pending: set<Round>) {
    && Submap(us, table) && data.Keys == table.Keys
    && Underway(us, p)
    && emitted == Elements(p.order)
    && ordered == Sent(table, data, p.order)
    && pending == Pending(id, table, emitted)
  }

  /** Where the queue loop stands: `done` and `queue` are a trail of the sweep. */
  ghost predicate Sweeping(us: Units, base: set<UnitHash>, head: UnitHash, done: seq<UnitHash>, queue: seq<UnitHash>,
                           marks: set<UnitHash>)
    requires Rooted(us) && head in us
  {
    && (forall h :: h in done + queue ==> h in us)
    && marks == base + Elements(done + queue)
    && Sweep(us, base, done + queue, |done|) == Sweep(us, base, [head], 0)
  }

  lemma SweepingStarts(us: Units, base: set<UnitHash>, head: UnitHash)
    requires Rooted(us) && head in us
    ensures Sweeping(us, base, head, [], [head], base + {head})
  {
    assert [] + [head] == [head];
  }

  /** The trail of the loop after one turn, as one step of the sweep. */
  lemma TrailTurns(us: Units, base: set<UnitHash>, done: seq<UnitHash>, queue: seq<UnitHash>, marks: set<UnitHash>)
    requires Rooted(us) && queue != [] && forall h :: h in done + queue ==> h in us
    requires marks == base + Elements(done + queue)
    ensures queue[0] in us
    ensures var found := Discover(ParentWalk(us[queue[0]]), marks);
      Turned(us, base, done + queue, |done|, (done + [queue[0]]) + (queue[1..] + found), found)
  {
    var trail := done + queue;
    assert trail[|done|] == queue[0] && queue[0] in trail;
    Rotate(done, queue, Fresh(us, base, trail, |done|));
    TurnTrail(us, base, trail, |done|);
  }

  lemma SweepingTurns(us: Units, base: set<UnitHash>, head: UnitHash, done: seq<UnitHash>, queue: seq<UnitHash>,
                      marks: set<UnitHash>)
    requires Rooted(us) && head in us && Sweeping(us, base, head, done, queue, marks) && queue != []
    ensures queue[0] in us
    ensures var found := Discover(ParentWalk(us[queue[0]]), marks);
      Sweeping(us, base, head, done + [queue[0]], queue[1..] + found, marks + Elements(found))
  {
    TrailTurns(us, base, done, queue, marks);
    var found := Discover(ParentWalk(us[queue[0]]), marks);
    var next := (done + [queue[0]]) + (queue[1..] + found);
    assert Turned(us, base, done + queue, |done|, next, found);
    assert |done + [queue[0]]| == |done| + 1;
    SetsRegroup(base, Elements(done + queue), Elements(found));
    assert Sweep(us, base, next, |done| + 1) == Sweep(us, base, [head], 0);
  }

  lemma SetsRegroup<T>(a: set<T>, b: set<T>, c: set<T>)
    ensures (a + b) + c == a + (b + c)
  {
  }

  lemma SweepingShrinks(us: Units, base: set<UnitHash>, head: UnitHash, done: seq<UnitHash>, queue: seq<UnitHash>,
                        marks: set<UnitHash>)
    requires Rooted(us) && head in us && Sweeping(us, base, head, done, queue, marks) && queue != [] && queue[0] in us
    ensures var found := Discover(ParentWalk(us[queue[0]]), marks);
      found == [] || us.Keys - (marks + Elements(found)) < us.Keys - marks
  {
    var found := Discover(ParentWalk(us[queue[0]]), marks);
    if found != [] {
      var x := found[0];
      assert x in found && x in Elements(found);
      assert x in ParentWalk(us[queue[0]]);
      var c :| c in us[queue[0]].parents && us[queue[0]].parents[c] == x;
      assert Linked(us, queue[0], c);
    }
  }

  lemma SweepingEnds(us: Units, base: set<UnitHash>, head: UnitHash, done: seq<UnitHash>, marks: set<UnitHash>)
    requires Rooted(us) && head in us && Sweeping(us, base, head, done, [], marks)
    ensures Reversed(done) == Batch(us, base, head) && marks == base + Elements(Reversed(done))
  {
    assert done + [] == done;
    assert Elements(Reversed(done)) == Elements(done);
  }

  /** One parent of the walk: marked and queued where it is first seen. */
  lemma DiscoverStep(walk: seq<UnitHash>, i: nat, rest: seq<UnitHash>, found: seq<UnitHash>, base: set<UnitHash>,
                     marks: set<UnitHash>)
    requires i < |walk| && marks == base + Elements(found)
    ensures Discover(walk[i..], marks) ==
      if walk[i] in marks then Discover(walk[i + 1..], marks)
      else [walk[i]] + Discover(walk[i + 1..], marks + {walk[i]})
    ensures forall more :: (found + [walk[i]]) + more == found + ([walk[i]] + more)
    ensures marks + {walk[i]} == base + Elements(found + [walk[i]])
    ensures rest + (found + [walk[i]]) == (rest + found) + [walk[i]]
  {
    assert walk[i..][1..] == walk[i + 1..];
    ElementsJoin(found, [walk[i]]);
  }

  /** What one step of the sweep does to a trail. */
  ghost predicate Turned(us: Units, base: set<UnitHash>, trail: seq<UnitHash>, k: nat, next: seq<UnitHash>,
                         found: seq<UnitHash>)
    requires Rooted(us) && k < |trail| && forall h :: h in trail ==> h in us
  {
    && (forall h :: h in next ==> h in us) && |next| == |trail| + |found|
    && Elements(next) == Elements(trail) + Elements(found)
    && Sweep(us, base, next, k + 1) == Sweep(us, base, trail, k)
    && (Unmarked(us, base, next) < Unmarked(us, base, trail) || (next == trail && found == []))
  }

  lemma TurnTrail(us: Units, base: set<UnitHash>, trail: seq<UnitHash>, k: nat)
    requires Rooted(us) && k < |trail| && forall h :: h in trail ==> h in us
    ensures var found := Fresh(us, base, trail, k); Turned(us, base, trail, k, trail + found, found)
  {
    MarksShrink(us, base, trail, k);
    SweepStep(us, base, trail, k);
    ElementsJoin(trail, Fresh(us, base, trail, k));
  }

  lemma Rotate(done: seq<UnitHash>, queue: seq<UnitHash>, found: seq<UnitHash>)
    requires queue != []
    ensures (done + [queue[0]]) + (queue[1..] + found) == (done + queue) + found
  {
  }

  lemma ElementsJoin(a: seq<UnitHash>, b: seq<UnitHash>)
    ensures Elements(a + b) == Elements(a) + Elements(b)
  {
  }

  lemma HeldBatch(table: Units, data: map<UnitHash, seq<Item>>, us: Units, order: seq<UnitHash>)
    requires Submap(us, table) && data.Keys == table.Keys && forall h :: h in order ==> h in us
    ensures AllHeld(table, data, order)
  {
    forall h | h in order ensures h in table && h in data {
      assert h in us;
      assert h in table.Keys;
    }
  }

  lemma EmitParts(us: Units, p: Progress, head: UnitHash)
    requires Rooted(us) && Underway(us, p) && head in us && us[head].round == p.next
    ensures head !in p.order && Underway(us, Emit(us, p, head))
    ensures Distinct(p.order + Batch(us, Elements(p.order), head))
    ensures forall h :: h in p.order + Batch(us, Elements(p.order), head) ==> h in us
    ensures Elements(p.order + Batch(us, Elements(p.order), head))
      == Elements(p.order) + Elements(Batch(us, Elements(p.order), head))
  {
    EmitUnderway(us, p, head);
    assert Emit(us, p, head).order == p.order + Batch(us, Elements(p.order), head);
  }

  lemma RunStep(rules: Rules, us: Units, p: Progress, head: UnitHash)
    requires Rooted(us) && Head(rules, us, p.next) == Some(head)
    ensures Run(rules, us, p) == Run(rules, us, Emit(us, p, head))
    ensures us[head].round == p.next && UnitsFrom(us, p.next + 1) < UnitsFrom(us, p.next)
  {
    assert head in UnitsFrom(us, p.next) && head !in UnitsFrom(us, p.next + 1);
  }

  ghost predicate AllHeld(table: Units, data: map<UnitHash, seq<Item>>, order: seq<UnitHash>) {
    forall h :: h in order ==> h in table && h in data
  }

  /** What has been sent, and which own rounds that leaves pending. */
  ghost predicate SentSoFar(id: NodeId, table: Units, data: map<UnitHash, seq<Item>>, order: seq<UnitHash>,
                            ordered: seq<Emission>, pending: set<Round>) {
    AllHeld(table, data, order) && ordered == Sent(table, data, order) && pending == Pending(id, table, Elements(order))
  }

  lemma BatchMember(table: Units, data: map<UnitHash, seq<Item>>, order: seq<UnitHash>, batch: seq<UnitHash>, i: nat)
    requires Distinct(order + batch) && AllHeld(table, data, order + batch) && i < |batch|
    ensures batch[i] in batch && batch[i] in table && batch[i] in data && batch[i] !in order + batch[..i]
    ensures (order + batch[..i]) + [batch[i]] == order + batch[..i + 1]
  {
    NotYetSent(order, batch, i);
    assert (order + batch)[|order| + i] == batch[i];
  }

  lemma SendOne(id: NodeId, table: Units, data: map<UnitHash, seq<Item>>, order: seq<UnitHash>,
                ordered: seq<Emission>, pending: set<Round>, h: UnitHash)
    requires SentSoFar(id, table, data, order, ordered, pending) && OwnSingle(id, table)
    requires h in table && h in data && h !in order
    ensures SentSoFar(id, table, data, order + [h], ordered + UnitSent(table[h], data[h]),
                      if table[h].creator == id then pending - {table[h].round} else pending)
  {
    assert (order + [h])[..|order|] == order;
    ElementsJoin(order, [h]);
    assert Elements([h]) == {h};
    PendingOne(id, table, Elements(order), h);
  }

  lemma NotYetSent(order: seq<UnitHash>, batch: seq<UnitHash>, i: nat)
    requires Distinct(order + batch) && i < |batch|
    ensures batch[i] !in order + batch[..i]
  {
    var before := order + batch[..i];
    assert forall j :: 0 <= j < |before| ==> before[j] == (order + batch)[j];
    assert batch[i] == (order + batch)[|before|];
  }

  /** Emitting an own unit settles its round; other units settle nothing. */
  lemma PendingOne(id: NodeId, table: Units, emitted: set<UnitHash>, h: UnitHash)
    requires OwnSingle(id, table) && h in table
    ensures Pending(id, table, emitted + {h}) ==
      if table[h].creator == id then Pending(id, table, emitted) - {table[h].round} else Pending(id, table, emitted)
  {
    var before, after := Pending(id, table, emitted), Pending(id, table, emitted + {h});
    forall r | r in before && r !in after ensures table[h].creator == id && r == table[h].round {
      var g :| g in table && table[g].creator == id && table[g].data.Some? && g !in emitted && table[g].round == r;
      assert g == h || g !in emitted + {h};
    }
    forall r | r in after ensures r in before && (table[h].creator == id ==> r != table[h].round) {
      var g :|
        g in table && table[g].creator == id && table[g].data.Some? && g !in emitted + {h} && table[g].round == r;
      assert table[h].creator == id && r == table[h].round <==> BothOwn(table[g], table[h], id);
    }
  }

  /** Extending more units keeps caches and emission sound. */
  lemma SoundnessGrows(rules: Rules, id: NodeId, table: Units, data: map<UnitHash, seq<Item>>, hash: UnitHash,
                       before: Units, votes: map<(UnitHash, UnitHash), bool>, decided: map<UnitHash, (bool, Round)>,
                       p: Progress, emitted: set<UnitHash>, ordered: seq<Emission>, pending: set<Round>)
    requires before == Extended(Without(table, hash)) && CachesSound(rules, before, votes, decided)
    requires EmissionSound(id, table, data, before, p, emitted, ordered, pending)
    ensures CachesSound(rules, Extended(table), votes, decided)
    ensures EmissionSound(id, table, data, Extended(table), p, emitted, ordered, pending)
  {
    ExtendedGrows(Without(table, hash), table);
    ExtendedRooted(table);
    CachesGrow(rules, before, Extended(table), votes, decided);
    UnderwayGrows(before, Extended(table), p);
  }

  function PendingWith(id: NodeId, pending: set<Round>, u: Unit): set<Round> {
    if u.creator == id && u.data.Some? then pending + {u.round} else pending
  }

  lemma PendingStored(id: NodeId, table: Units, emitted: set<UnitHash>, h: UnitHash, u: Unit)
    requires h !in table && h !in emitted
    ensures Pending(id, table[h := u], emitted) == PendingWith(id, Pending(id, table, emitted), u)
  {
    var larger := table[h := u];
    assert larger[h] == u;
    forall r | r in Pending(id, table, emitted) ensures r in Pending(id, larger, emitted) {
      var g :| g in table && table[g].creator == id && table[g].data.Some? && g !in emitted && table[g].round == r;
      assert larger[g] == table[g];
    }
  }

  /** Storing a unit leaves the emission as it is, but for an own round to order. */
  lemma EmissionStored(id: NodeId, table: Units, data: map<UnitHash, seq<Item>>, us: Units, p: Progress,
                       emitted: set<UnitHash>, ordered: seq<Emission>, pending: set<Round>,
                       h: UnitHash, u: Unit, items: seq<Item>)
    requires EmissionSound(id, table, data, us, p, emitted, ordered, pending) && h !in table
    ensures EmissionSound(id, table[h := u], data[h := items], us, p, emitted, ordered, PendingWith(id, pending, u))
    ensures Without(table[h := u], h) == table
  {
    WithoutNew(table, h, u);
    SentStable(table, data, table[h := u], data[h := items], p.order);
    PendingStored(id, table, emitted, h, u);
  }

  /** Total-order agreement down to the items: two nodes' channels are prefixes
      of one another when their orders are, since units pin their payloads. */
  lemma {:induction false} ChannelsAgree(rules: Rules, hashing: Hashing, one: Units, oneData: map<UnitHash, seq<Item>>,
                                         two: Units, twoData: map<UnitHash, seq<Item>>, all: Units,
                                         short: seq<UnitHash>, long: seq<UnitHash>)
    requires forall a: seq<Item>, b: seq<Item> :: hashing.digestOf(a) == hashing.digestOf(b) ==> a == b
    requires TablesAgree(rules, hashing, one, oneData) && TablesAgree(rules, hashing, two, twoData)
    requires Submap(one, all) && Submap(two, all)
    requires short <= long && AllHeld(one, oneData, short) && AllHeld(two, twoData, long)
    ensures Sent(one, oneData, short) <= Sent(two, twoData, long)
    decreases |long|
  {
    if |short| < |long| {
      assert short <= long[..|long| - 1];
      ChannelsAgree(rules, hashing, one, oneData, two, twoData, all, short, long[..|long| - 1]);
    } else {
      assert short == long;
      forall h | h in short ensures one[h] == two[h] && oneData[h] == twoData[h] {
        assert one[h] == all[h] == two[h];
        assert Pinned(hashing, h, one[h], oneData) && Pinned(hashing, h, two[h], twoData);
      }
      SentStable(one, oneData, two, twoData, short);
    }
  }
}

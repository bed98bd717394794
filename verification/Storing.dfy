/** The unit tables, the round index over them and the own-column cursor: what
    each means, and what storing one more unit does to it. */
module Storing {
  import opened Ordered
  import opened Dag
  import opened Extension
  import opened Protocol

  type Item = nat

  type Emission = (Round, NodeId, Item)

  /** A unit as it travels: with its payload, and whether the creator's
      signature over it verifies in this session. */
  datatype Envelope = Envelope(unit: Unit, data: seq<Item>, signatureValid: bool)

  datatype Admission = Rejected | Duplicate | Stored

  /** `rounds` is the round index over the unit table. */
  ghost predicate Indexed(rounds: map<Round, set<UnitHash>>, table: Units) {
    && (forall r, h {:trigger Listed(rounds, r, h)} :: Listed(rounds, r, h) ==> h in table && table[h].round == r)
    && (forall h :: h in table ==> Listed(rounds, table[h].round, h))
  }

  predicate Listed(rounds: map<Round, set<UnitHash>>, r: Round, h: UnitHash) {
    r in rounds && h in rounds[r]
  }

  /** The extended units of a round, lowest hash first. */
  function ExtendedAt(rounds: map<Round, set<UnitHash>>, extended: Units, round: Round): (r: seq<UnitHash>)
    ensures forall h :: h in r <==> Listed(rounds, round, h) && h in extended
  {
    if round in rounds then Ascending(set h | h in rounds[round] && h in extended) else []
  }

  /** The stored units of a round, lowest hash first. */
  function StoredAt(rounds: map<Round, set<UnitHash>>, round: Round): (r: seq<UnitHash>)
    ensures forall h :: h in r <==> Listed(rounds, round, h)
  {
    if round in rounds then Ascending(rounds[round]) else []
  }

  lemma TryVisits(table: Units, avail: Units, before: Units, extended: Units, k: Round, visited: set<UnitHash>,
                  h: UnitHash)
    requires Submap(avail, table) && h in avail && avail[h].round == k && MidSweep(avail, before, extended, k, visited)
    ensures MidSweep(avail, before,
      if h !in extended && Placed(table, extended, h) then extended[h := table[h]] else extended, k, visited + {h})
  {
    assert Placed(table, extended, h) == Placed(avail, extended, h);
    SweepVisits(avail, before, extended, k, visited, h);
  }

  /** Whether a sweep extended anything, as the cascade's termination needs it. */
  ghost predicate Grew(avail: Units, was: Units, now: Units, any: bool) {
    if any then avail.Keys - now.Keys < avail.Keys - was.Keys else now == was
  }

  lemma GrowsOne(table: Units, avail: Units, was: Units, now: Units, any: bool, h: UnitHash)
    requires Grew(avail, was, now, any) && h in avail && h in table
    ensures h !in now ==> Grew(avail, was, now[h := table[h]], true)
  {
    var larger := now[h := table[h]];
    assert avail.Keys - larger.Keys == avail.Keys - now.Keys - {h};
  }

  lemma StoredAtRound(rounds: map<Round, set<UnitHash>>, table: Units, round: Round)
    requires Indexed(rounds, table)
    ensures forall h :: h in StoredAt(rounds, round) <==> h in table && table[h].round == round
  {
  }

  ghost predicate OwnSingle(id: NodeId, table: Units) {
    forall g, h {:trigger BothOwn(table[g], table[h], id)} ::
      g in table && h in table && BothOwn(table[g], table[h], id) ==> g == h
  }

  /** `top` is the highest own unit, if there is one. */
  ghost predicate IsOwnTop(id: NodeId, table: Units, top: Option<(Round, UnitHash)>) {
    match top
    case None => forall h :: h in table ==> table[h].creator != id
    case Some((r, t)) =>
      && t in table && table[t].creator == id && table[t].round == r
      && forall h :: h in table && table[h].creator == id ==> table[h].round <= r
  }

  /** The two hash functions the tables are keyed and pinned by. */
  datatype Hashing = Hashing(hashOf: Unit -> UnitHash, digestOf: seq<Item> -> Digest) {
    function Commitment(data: seq<Item>): Option<Digest> {
      if data == [] then None else Some(digestOf(data))
    }
  }

  /** The tables agree with one another, and units pin their payloads. */
  ghost predicate TablesAgree(rules: Rules, hashing: Hashing, table: Units, data: map<UnitHash, seq<Item>>) {
    && Admitted(rules, table) && data.Keys == table.Keys
    && forall h :: h in table ==> Pinned(hashing, h, table[h], data)
  }

  ghost predicate Pinned(hashing: Hashing, h: UnitHash, u: Unit, data: map<UnitHash, seq<Item>>) {
    hashing.hashOf(u) == h && h in data && u.data == hashing.Commitment(data[h])
  }

  function IndexWith(rounds: map<Round, set<UnitHash>>, round: Round, hash: UnitHash): map<Round, set<UnitHash>> {
    rounds[round := (if round in rounds then rounds[round] else {}) + {hash}]
  }

  function TopWith(id: NodeId, top: Option<(Round, UnitHash)>, hash: UnitHash, u: Unit): Option<(Round, UnitHash)> {
    if u.creator == id && (top.None? || u.round > top.value.0) then Some((u.round, hash)) else top
  }

  lemma TablesStore(rules: Rules, hashing: Hashing, table: Units, data: map<UnitHash, seq<Item>>, h: UnitHash, u: Unit,
                    items: seq<Item>)
    requires TablesAgree(rules, hashing, table, data) && h !in table && rules.Admits(u)
    requires hashing.hashOf(u) == h && u.data == hashing.Commitment(items)
    ensures TablesAgree(rules, hashing, table[h := u], data[h := items])
  {
    forall g | g in table ensures Pinned(hashing, g, table[g], data[h := items]) {
      assert Pinned(hashing, g, table[g], data);
    }
  }

  lemma IndexStore(rounds: map<Round, set<UnitHash>>, table: Units, h: UnitHash, u: Unit)
    requires Indexed(rounds, table) && h !in table
    ensures Indexed(IndexWith(rounds, u.round, h), table[h := u])
  {
    var larger, index := table[h := u], IndexWith(rounds, u.round, h);
    forall r, g | Listed(index, r, g) ensures g in larger && larger[g].round == r {
      assert Listed(rounds, r, g) || (g == h && r == u.round);
    }
    forall g | g in larger ensures Listed(index, larger[g].round, g) {
      assert g == h || Listed(rounds, larger[g].round, g);
    }
  }

  lemma OwnTopStore(id: NodeId, table: Units, top: Option<(Round, UnitHash)>, h: UnitHash, u: Unit)
    requires IsOwnTop(id, table, top) && h !in table
    ensures IsOwnTop(id, table[h := u], TopWith(id, top, h, u))
  {
  }

  /** What the extender needs of a node's extended set. */
  lemma ViewReady(s: Session, id: NodeId, rounds: map<Round, set<UnitHash>>, table: Units)
    requires s.Sound() && id !in s.byzantine && Submap(table, s.signed) && Indexed(rounds, table)
    ensures s.World().Sound() && s.World().rules == s.rules && s.World().Holds(Extended(table))
    ensures ExtendedIndexed(rounds, Extended(table)) && Admitted(s.rules, Extended(table)) && OwnSingle(id, table)
  {
    SoundWorld(s);
    TableHolds(s, table);
    ExtendedOfIndexed(rounds, table);
    OwnSingleOf(s, id, table);
    AdmittedPart(s.rules, s.signed, Extended(table));
  }

  lemma AdmittedPart(rules: Rules, table: Units, part: Units)
    requires Admitted(rules, table) && Submap(part, table)
    ensures Admitted(rules, part)
  {
    forall h | h in part ensures rules.Admits(part[h]) {
      assert rules.Admits(table[h]);
    }
  }

  lemma ExtendedOfIndexed(rounds: map<Round, set<UnitHash>>, table: Units)
    requires Indexed(rounds, table)
    ensures ExtendedIndexed(rounds, Extended(table))
  {
  }

  lemma WithoutNew(table: Units, h: UnitHash, u: Unit)
    requires h !in table
    ensures Without(table[h := u], h) == table
  {
  }

  /** All that publishing and storing the new unit needs. */
  lemma NewOwnUnit(s: Session, id: NodeId, n: Node, u: Unit)
    requires s.Sound() && NodeInv(s, id, n) && MayCreate(s.rules, n, id, u)
    ensures s.hashOf(u) !in n.table && s.Publish(u).Sound() && id !in s.byzantine
    ensures Submap(n.table[s.hashOf(u) := u], s.Publish(u).signed)
    ensures NodeInv(s.Publish(u), id, Create(s.rules, n, s.hashOf(u), u))
    ensures var table := n.table[s.hashOf(u) := u];
      Create(s.rules, n, s.hashOf(u), u) == Node(table, table, RunOver(s.rules, table, n.progress))
  {
    MadeIsNew(s, id, n, u);
    CreateKeepsInv(s, id, n, u);
  }

  lemma TopAfter(id: NodeId, table: Units, larger: Units, h: UnitHash, u: Unit, top: Option<(Round, UnitHash)>)
    requires h !in table && larger == table[h := u] && u.creator == id && IsOwnTop(id, larger, top)
    requires forall g :: g in table && table[g].creator == id ==> table[g].round < u.round
    ensures top.Some? && top.value.0 == u.round
  {
    assert larger[h] == u;
  }

  /** What is known of an admitted unit that is not stored yet. */
  lemma NewArrival(rules: Rules, hashing: Hashing, s: Session, id: NodeId, n: Node, data: map<UnitHash, seq<Item>>,
                   rounds: map<Round, set<UnitHash>>, u: Unit)
    requires s.Sound() && s.rules == rules && s.hashOf == hashing.hashOf && NodeInv(s, id, n)
    requires TablesAgree(rules, hashing, n.table, data) && Indexed(rounds, n.table)
    requires hashing.hashOf(u) in s.signed
    requires !Listed(rounds, u.round, hashing.hashOf(u))
    ensures hashing.hashOf(u) !in n.table && u.creator != id && id !in s.byzantine
    ensures Submap(n.table[hashing.hashOf(u) := u], s.signed)
    ensures NodeInv(s, id, Receive(rules, n, hashing.hashOf(u), u))
    ensures Receive(rules, n, hashing.hashOf(u), u) ==
      Node(n.table[hashing.hashOf(u) := u], n.durable, RunOver(rules, n.table[hashing.hashOf(u) := u], n.progress))
  {
    var h := hashing.hashOf(u);
    HashNamesUnit(s, u);
    forall v: Unit | hashing.hashOf(v) == h ensures v == u {
      assert SameHash(s.hashOf, v, u);
    }
    StoredUnderHash(rules, hashing, n.table, data, rounds, u);
    ReceiveKeepsInv(s, id, n, h);
    ReceivedIsForeign(s, id, n, h);
    ReceiveNew(rules, n, h, u);
  }

  lemma ReceiveNew(rules: Rules, n: Node, h: UnitHash, u: Unit)
    requires h !in n.table
    ensures Receive(rules, n, h, u) ==
      Node(n.table[h := u], n.durable, RunOver(rules, n.table[h := u], n.progress))
  {
  }

  /** A unit an honest node does not hold yet is not its own. */
  lemma ReceivedIsForeign(s: Session, id: NodeId, n: Node, h: UnitHash)
    requires NodeInv(s, id, n) && h in s.signed && h !in n.table
    ensures s.signed[h].creator != id
  {
  }

  /** The duplicate check by round index is a lookup by hash. */
  lemma StoredUnderHash(rules: Rules, hashing: Hashing, table: Units, data: map<UnitHash, seq<Item>>,
                        rounds: map<Round, set<UnitHash>>, u: Unit)
    requires TablesAgree(rules, hashing, table, data) && Indexed(rounds, table)
    requires forall v: Unit :: hashing.hashOf(v) == hashing.hashOf(u) ==> v == u
    ensures hashing.hashOf(u) in table <==> Listed(rounds, u.round, hashing.hashOf(u))
  {
    var h := hashing.hashOf(u);
    if h in table {
      assert Pinned(hashing, h, table[h], data);
    }
  }

  lemma OwnSingleOf(s: Session, id: NodeId, table: Units)
    requires s.Sound() && id !in s.byzantine && Submap(table, s.signed)
    ensures OwnSingle(id, table)
  {
    forall g, h | g in table && h in table && BothOwn(table[g], table[h], id) ensures g == h {
      assert SamePosition(s.signed[g], s.signed[h], s.byzantine);
    }
  }

  /** The round index restricted to extended units. */
  ghost predicate ExtendedIndexed(rounds: map<Round, set<UnitHash>>, extended: Units) {
    && (forall h :: h in extended ==> Listed(rounds, extended[h].round, h))
    && (forall r, h {:trigger Listed(rounds, r, h)} :: Listed(rounds, r, h) && h in extended ==> extended[h].round == r)
  }
}

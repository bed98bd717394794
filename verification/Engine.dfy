/** One node's engine: its caches, sweeps, queue and cursors, each method proved
    against the specification functions of the modules before it. */
module Engine {
  import opened Ordered
  import opened Dag
  import opened Voting
  import opened Election
  import opened Ordering
  import opened Extension
  import opened Protocol
  import opened Storing
  import opened Deciding
  import opened Emitting
  import opened Creating
  import opened Replaying
  import opened Walking

  class Engine {
    const id: NodeId
    const rules: Rules
    const hashing: Hashing

    // the database tables
    var unitTable: Units
    var dataTable: map<UnitHash, seq<Item>>

    // rebuilt from disk on startup, never persisted
    var rounds: map<Round, set<UnitHash>>
    var extended: Units
    var emitted: set<UnitHash>
    var nextDecideRound: Round
    var decided: map<UnitHash, (bool, Round)>
    var votes: map<(UnitHash, UnitHash), bool>
    var unorderedOwnData: set<Round>
    var ownTop: Option<(Round, UnitHash)>
    var requestSentAt: map<UnitHash, nat>

    // the ordered-item channel, and the units behind it
    var ordered: seq<Emission>
    ghost var order: seq<UnitHash>

    ghost predicate Valid()
      reads this
    {
      Stocked() && Running() && extended == Extended(unitTable)
    }

    /** The tables and what indexes them. */
    ghost predicate Stocked()
      reads this`unitTable, this`dataTable, this`rounds, this`ownTop
    {
      && TablesAgree(rules, hashing, unitTable, dataTable) && Indexed(rounds, unitTable)
      && IsOwnTop(id, unitTable, ownTop)
    }

    /** The caches over what is extended, and what has been emitted of it. */
    ghost predicate Running()
      reads this`unitTable, this`dataTable, this`extended, this`votes, this`decided, this`nextDecideRound, this`order,
            this`emitted, this`ordered, this`unorderedOwnData
    {
      && CachesSound(rules, extended, votes, decided)
      && EmissionSound(id, unitTable, dataTable, extended, Progress(nextDecideRound, order), emitted, ordered,
                       unorderedOwnData)
    }

    /** This node's state in the protocol, given what of its table is fsynced. */
    ghost function AsNode(durable: Units): Node
      reads this`unitTable, this`nextDecideRound, this`order
    {
      Node(unitTable, durable, Progress(nextDecideRound, order))
    }

    /** This engine is node `id` of session `s`, with what the protocol keeps. */
    ghost predicate In(s: Session, durable: Units)
      reads this`unitTable, this`nextDecideRound, this`order
    {
      && s.rules == rules && s.hashOf == hashing.hashOf && id < rules.Total()
      && s.Sound() && NodeInv(s, id, AsNode(durable))
    }

    // ----- virtual voting -----

    method VoteOf(cand: UnitHash, voter: UnitHash) returns (bit: bool)
      requires MemoSound(rules, extended, votes)
      requires cand in extended && voter in extended && extended[cand].round < extended[voter].round
      modifies this`votes
      ensures MemoSound(rules, extended, votes)
      ensures Votes(rules, extended, cand, voter, bit)
      decreases extended[voter].round, 1
    {
      var k, u := extended[cand], extended[voter];
      if u.round == k.round + 1 {
        return k.creator in u.parents && u.parents[k.creator] == cand;
      }
      if (cand, voter) in votes {
        return votes[(cand, voter)];
      }
      var parentVotes := CollectVotes(cand, voter);
      bit := Aggregate(parentVotes, CommonVote(rules, cand, k.round, u.round));
      VoteFromBits(rules, extended, votes, cand, voter, parentVotes);
      votes := votes[(cand, voter) := bit];
    }

    method CollectVotes(cand: UnitHash, voter: UnitHash) returns (bits: seq<bool>)
      requires MemoSound(rules, extended, votes)
      requires cand in extended && voter in extended && extended[cand].round + 2 <= extended[voter].round
      modifies this`votes
      ensures MemoSound(rules, extended, votes)
      ensures |bits| == |ParentWalk(extended[voter])|
      ensures Tallied(rules, extended, cand, ParentWalk(extended[voter]), bits)
      decreases extended[voter].round, 0
    {
      var walk := ParentWalk(extended[voter]);
      bits := [];
      for i := 0 to |walk|
        invariant MemoSound(rules, extended, votes)
        invariant |bits| == i && Tallied(rules, extended, cand, walk, bits)
      {
        WalkMayAsk(extended, cand, voter, i);
        var v := VoteOf(cand, walk[i]);
        TallyMore(rules, extended, cand, walk, bits, v);
        bits := bits + [v];
      }
    }

    /** Whether the parent by creator `c` votes `v`. */
    method Supports(cand: UnitHash, unit: UnitHash, v: bool, c: NodeId) returns (supports: bool)
      requires MemoSound(rules, extended, votes)
      requires cand in extended && unit in extended && extended[cand].round + 2 <= extended[unit].round
      requires c in extended[unit].parents
      modifies this`votes
      ensures MemoSound(rules, extended, votes)
      ensures supports <==> c in Supporters(rules, extended, cand, unit, v)
    {
      MayAsk(extended, cand, unit, c);
      SupporterIff(rules, extended, cand, unit, v, c);
      var bit := VoteOf(cand, extended[unit].parents[c]);
      return bit == v;
    }

    /** The parents under which `unit` supports the bit `v`. */
    method Matching(cand: UnitHash, unit: UnitHash, v: bool) returns (count: nat)
      requires MemoSound(rules, extended, votes)
      requires cand in extended && unit in extended && extended[cand].round + 2 <= extended[unit].round
      modifies this`votes
      ensures MemoSound(rules, extended, votes)
      ensures count == |Supporters(rules, extended, cand, unit, v)|
    {
      var u := extended[unit];
      var creators := Ascending(u.parents.Keys);
      ghost var all := Supporters(rules, extended, cand, unit, v);
      count := 0;
      for i := 0 to |creators|
        invariant MemoSound(rules, extended, votes)
        invariant count == CountUpTo(all, creators, i)
      {
        assert creators[i] in creators;
        var supports := Supports(cand, unit, v, creators[i]);
        if supports {
          count := count + 1;
        }
      }
      CountAll(all, u.parents.Keys);
    }

    // ----- decisions and heads -----

    method Decide(cand: UnitHash) returns (r: Option<bool>)
      requires CachesSound(rules, extended, votes, decided) && Admitted(rules, extended)
      requires ExtendedIndexed(rounds, extended) && cand in extended
      modifies this`votes, this`decided
      ensures CachesSound(rules, extended, votes, decided)
      ensures r.Some? ==> Decided(rules, extended, cand, r.value)
      ensures r.None? ==> Undecided(rules, extended, cand)
    {
      if cand in decided {
        return Some(decided[cand].0);
      }
      var round: Round := extended[cand].round + 2;
      while true
        invariant CachesSound(rules, extended, votes, decided) && extended[cand].round + 2 <= round
        invariant NoDeciderBelow(rules, extended, cand, round)
        decreases |extended| - round
      {
        var row := ExtendedAt(rounds, extended, round);
        RowOfRound(rounds, extended, round);
        if row == [] {
          GapEndsScan(rules, extended, cand, round);
          return None;
        }
        RoundsBounded(rules, extended, row[0]);
        var decision := ScanRow(cand, round, row);
        if decision.Some? {
          return decision;
        }
        ScanUp(rules, extended, cand, round);
        round := round + 1;
      }
    }

    /** One round of the scan for a deciding unit. */
    method ScanRow(cand: UnitHash, round: Round, row: seq<UnitHash>) returns (r: Option<bool>)
      requires CachesSound(rules, extended, votes, decided) && cand in extended
      requires extended[cand].round + 2 <= round && IsRow(extended, round, row)
      modifies this`votes, this`decided
      ensures CachesSound(rules, extended, votes, decided)
      ensures r.Some? ==> Decided(rules, extended, cand, r.value)
      ensures r.None? ==> NoDeciderAt(rules, extended, cand, round)
    {
      var v := CommonVote(rules, cand, extended[cand].round, round);
      for i := 0 to |row|
        invariant CachesSound(rules, extended, votes, decided)
        invariant RowClear(rules, extended, cand, row, i, v)
      {
        var matching := Matching(cand, row[i], v);
        TallyDecides(rules, extended, cand, row, i, v, matching);
        if matching >= rules.Threshold() {
          DecisionCached(rules, extended, decided, cand, row[i], v, round);
          decided := decided[cand := (v, round)];
          return Some(v);
        }
      }
      RowScanned(rules, extended, cand, round, row);
      return None;
    }

    method ChooseHead(ghost w: World, round: Round) returns (head: Option<UnitHash>)
      requires CachesSound(rules, extended, votes, decided) && Admitted(rules, extended)
      requires ExtendedIndexed(rounds, extended)
      requires w.rules == rules && w.Sound() && w.Holds(extended)
      modifies this`votes, this`decided
      ensures CachesSound(rules, extended, votes, decided)
      ensures head == Head(rules, extended, round)
    {
      RowOfRound(rounds, extended, round + 3);
      RowOfRound(rounds, extended, round);
      var above := ExtendedAt(rounds, extended, round + 3);
      if above == [] {
        NoTopNoHead(rules, extended, round);
        return None;
      }
      var candidates := ExtendedAt(rounds, extended, round);
      for i := 0 to |candidates|
        invariant CachesSound(rules, extended, votes, decided)
        invariant Excluded(rules, extended, candidates, i)
      {
        var decision := Decide(candidates[i]);
        if decision == Some(true) {
          FirstIncluded(w, extended, round, candidates, i, above[0]);
          return Some(candidates[i]);
        }
        if decision == None {
          WalkBlocked(w, extended, round, candidates, i);
          return None;
        }
        ExcludeOne(rules, extended, candidates, i);
      }
      WalkBlocked(w, extended, round, candidates, |candidates|);
      return None;
    }

    // ----- batches and emission -----

    method BfsBatch(head: UnitHash) returns (batch: seq<UnitHash>)
      requires Rooted(extended) && head in extended && head !in emitted
      modifies this`emitted
      ensures batch == Batch(extended, old(emitted), head)
      ensures emitted == old(emitted) + Elements(batch)
    {
      ghost var base := emitted;
      emitted := emitted + {head};
      var queue, done := [head], [];
      SweepingStarts(extended, base, head);
      while queue != []
        invariant Sweeping(extended, base, head, done, queue, emitted)
        decreases extended.Keys - emitted, |queue|
      {
        var hash := queue[0];
        SweepingTurns(extended, base, head, done, queue, emitted);
        SweepingShrinks(extended, base, head, done, queue, emitted);
        queue := Enqueue(queue[1..], ParentWalk(extended[hash]));
        done := done + [hash];
      }
      SweepingEnds(extended, base, head, done, emitted);
      batch := Reversed(done);
    }

    /** Mark and enqueue the parents not marked yet. */
    method Enqueue(rest: seq<UnitHash>, walk: seq<UnitHash>) returns (queue: seq<UnitHash>)
      modifies this`emitted
      ensures queue == rest + Discover(walk, old(emitted))
      ensures emitted == old(emitted) + Elements(Discover(walk, old(emitted)))
    {
      queue := rest;
      ghost var found: seq<UnitHash> := [];
      for i := 0 to |walk|
        invariant queue == rest + found && emitted == old(emitted) + Elements(found)
        invariant found + Discover(walk[i..], emitted) == Discover(walk, old(emitted))
      {
        DiscoverStep(walk, i, rest, found, old(emitted), emitted);
        if walk[i] !in emitted {
          emitted := emitted + {walk[i]};
          queue := queue + [walk[i]];
          found := found + [walk[i]];
        }
      }
    }

    /** Send the payloads of a batch and settle our own units in it. */
    method SendBatch(batch: seq<UnitHash>)
      requires Distinct(order + batch) && OwnSingle(id, unitTable) && AllHeld(unitTable, dataTable, order + batch)
      requires forall h :: h in batch ==> h in extended && h in unitTable && extended[h] == unitTable[h]
      requires SentSoFar(id, unitTable, dataTable, order, ordered, unorderedOwnData)
      modifies this`ordered, this`unorderedOwnData, this`order
      ensures order == old(order) + batch
      ensures SentSoFar(id, unitTable, dataTable, order, ordered, unorderedOwnData)
    {
      for i := 0 to |batch|
        invariant order == old(order) + batch[..i]
        invariant SentSoFar(id, unitTable, dataTable, order, ordered, unorderedOwnData)
      {
        var hash := batch[i];
        BatchMember(unitTable, dataTable, old(order), batch, i);
        SendOne(id, unitTable, dataTable, order, ordered, unorderedOwnData, hash);
        var unit, data := extended[hash], dataTable[hash];
        SendItems(unit, data);
        if unit.creator == id {
          unorderedOwnData := unorderedOwnData - {unit.round};
        }
        order := order + [hash];
      }
      assert batch[..|batch|] == batch;
    }

    method SendItems(unit: Unit, data: seq<Item>)
      modifies this`ordered
      ensures ordered == old(ordered) + UnitSent(unit, data)
    {
      for j := 0 to |data|
        invariant ordered == old(ordered) + UnitSent(unit, data)[..j]
      {
        ordered := ordered + [(unit.round, unit.creator, data[j])];
      }
    }

    /** Elect and emit round after round for as long as rounds resolve. */
    method RunExtender(ghost w: World)
      requires Running()
      requires Admitted(rules, extended) && ExtendedIndexed(rounds, extended) && OwnSingle(id, unitTable)
      requires w.rules == rules && w.Sound() && w.Holds(extended)
      modifies this`votes, this`decided, this`emitted, this`ordered, this`unorderedOwnData, this`order,
               this`nextDecideRound
      ensures Running()
      ensures Progress(nextDecideRound, order) == Run(rules, extended, old(Progress(nextDecideRound, order)))
    {
      ghost var p0 := Progress(nextDecideRound, order);
      while true
        invariant Running()
        invariant Run(rules, extended, Progress(nextDecideRound, order)) == Run(rules, extended, p0)
        decreases UnitsFrom(extended, nextDecideRound)
      {
        var head := ChooseHead(w, nextDecideRound);
        if head == None {
          return;
        }
        RunStep(rules, extended, Progress(nextDecideRound, order), head.value);
        EmitHead(head.value);
      }
    }

    // ----- extension -----

    method MaybeExtend(hash: UnitHash) returns (r: Option<Round>)
      modifies this`extended
      ensures r.Some? <==> hash !in old(extended) && Placed(unitTable, old(extended), hash)
      ensures r.Some? ==> r.value == unitTable[hash].round
      ensures extended == if r.Some? then old(extended)[hash := unitTable[hash]] else old(extended)
    {
      if hash in extended || hash !in unitTable {
        return None;
      }
      var unit := unitTable[hash];
      if !Placed(unitTable, extended, hash) {
        return None;
      }
      extended := extended[hash := unit];
      return Some(unit.round);
    }

    /** One ascending sweep over the stored units of a round. */
    method SweepRound(round: Round, ghost avail: Units, ghost before: Units) returns (anyExtended: bool)
      requires Indexed(rounds, unitTable) && Submap(avail, unitTable)
      requires forall g :: g in unitTable && unitTable[g].round == round ==> g in avail
      requires MidSweep(avail, before, extended, round, {})
      modifies this`extended
      ensures CascadedBelow(avail, before, extended, round + 1)
      ensures Grew(avail, old(extended), extended, anyExtended)
    {
      var candidates := StoredAt(rounds, round);
      StoredAtRound(rounds, unitTable, round);
      anyExtended := false;
      ghost var visited: set<UnitHash> := {};
      for i := 0 to |candidates|
        invariant MidSweep(avail, before, extended, round, visited)
        invariant visited == Elements(candidates[..i])
        invariant Grew(avail, old(extended), extended, anyExtended)
      {
        var hash := candidates[i];
        VisitOne(candidates, i);
        TryVisits(unitTable, avail, before, extended, round, visited, hash);
        GrowsOne(unitTable, avail, old(extended), extended, anyExtended, hash);
        var r := MaybeExtend(hash);
        if r.Some? {
          anyExtended := true;
        }
        visited := visited + {hash};
      }
      assert candidates[..|candidates|] == candidates;
      SweepCloses(avail, before, extended, round, visited);
    }

    /** Extend a unit just stored and cascade upward. `avail` is the table as
        far as the caller has taken it up: all units above the new one's round. */
    method TryExtend(hash: UnitHash, ghost avail: Units)
      requires Indexed(rounds, unitTable) && Submap(avail, unitTable) && hash in avail
      requires forall g :: g in unitTable && unitTable[g].round > unitTable[hash].round ==> g in avail
      requires extended == Extended(Without(avail, hash))
      modifies this`extended
      ensures extended == Extended(avail)
    {
      ghost var before := extended;
      assert Placed(unitTable, extended, hash) == Placed(avail, extended, hash);
      var r := MaybeExtend(hash);
      if r == None {
        UnplacedChangesNothing(avail, hash);
        return;
      }
      CascadeStarts(avail, hash, before, extended);
      var nextRound: Round := r.value + 1;
      while true
        invariant CascadedBelow(avail, before, extended, nextRound) && unitTable[hash].round < nextRound
        decreases avail.Keys - extended.Keys
      {
        SweepOpens(avail, hash, before, extended, nextRound);
        var anyExtended := SweepRound(nextRound, avail, before);
        if !anyExtended {
          CascadeDone(avail, hash, before, extended, nextRound);
          return;
        }
        nextRound := nextRound + 1;
      }
    }

    // ----- storing a unit -----

    /** Install a validated envelope and index it. */
    method StoreUnit(hash: UnitHash, unit: Unit, data: seq<Item>)
      requires Stocked() && hash !in unitTable && rules.Admits(unit)
      requires hashing.hashOf(unit) == hash && unit.data == hashing.Commitment(data)
      modifies this`unitTable, this`dataTable, this`rounds, this`ownTop
      ensures unitTable == old(unitTable)[hash := unit] && dataTable == old(dataTable)[hash := data]
      ensures Stocked()
    {
      TablesStore(rules, hashing, unitTable, dataTable, hash, unit, data);
      IndexStore(rounds, unitTable, hash, unit);
      OwnTopStore(id, unitTable, ownTop, hash, unit);
      unitTable := unitTable[hash := unit];
      dataTable := dataTable[hash := data];
      rounds := IndexWith(rounds, unit.round, hash);
      ownTop := TopWith(id, ownTop, hash, unit);
    }

    /** After a store: cascade, then drain the heads that now resolve. */
    method Advance(hash: UnitHash, ghost s: Session)
      requires Stocked() && Running() && hash in unitTable && extended == Extended(Without(unitTable, hash))
      requires s.Sound() && s.rules == rules && id !in s.byzantine && Submap(unitTable, s.signed)
      modifies this`extended, this`votes, this`decided, this`emitted, this`ordered, this`unorderedOwnData, this`order,
               this`nextDecideRound
      ensures Valid()
      ensures Progress(nextDecideRound, order) == RunOver(rules, unitTable, old(Progress(nextDecideRound, order)))
    {
      Cascade(hash);
      Drain(s);
    }

    /** The extender over a view that is part of the session's world. */
    method Elect(ghost s: Session)
      requires Running() && Indexed(rounds, unitTable) && extended == Extended(unitTable)
      requires s.Sound() && s.rules == rules && id !in s.byzantine && Submap(unitTable, s.signed)
      modifies this`votes, this`decided, this`emitted, this`ordered, this`unorderedOwnData, this`order,
               this`nextDecideRound
      ensures Running()
      ensures Progress(nextDecideRound, order) == RunOver(rules, unitTable, old(Progress(nextDecideRound, order)))
    {
      ViewReady(s, id, rounds, unitTable);
      RunExtender(s.World());
    }

    /** The extender over all that the table lets us extend. */
    method Drain(ghost s: Session)
      requires Valid()
      requires s.Sound() && s.rules == rules && id !in s.byzantine && Submap(unitTable, s.signed)
      modifies this`votes, this`decided, this`emitted, this`ordered, this`unorderedOwnData, this`order,
               this`nextDecideRound
      ensures Valid()
      ensures Progress(nextDecideRound, order) == RunOver(rules, unitTable, old(Progress(nextDecideRound, order)))
    {
      Elect(s);
      assert unitTable == old(unitTable) && dataTable == old(dataTable) && rounds == old(rounds);
      assert ownTop == old(ownTop) && extended == old(extended);
    }

    /** The cascade leaves caches and emission sound over what it extended. */
    method Cascade(hash: UnitHash)
      requires Stocked() && Running() && hash in unitTable && extended == Extended(Without(unitTable, hash))
      modifies this`extended
      ensures extended == Extended(unitTable) && Running()
    {
      SoundnessGrows(rules, id, unitTable, dataTable, hash, extended, votes, decided,
                     Progress(nextDecideRound, order), emitted, ordered, unorderedOwnData);
      TryExtend(hash, unitTable);
    }

    /** The admission checks of an inbound unit, the walk for its missing
        ancestors, the duplicate check and the install. The commit is relaxed:
        what is durable stays as it was. */
    method HandleUnit(ghost s: Session, ghost durable: Units, ev: Envelope, clock: UnitHash -> nat)
      returns (r: Admission, asked: seq<UnitHash>)
      requires Valid() && In(s, durable)
      requires ev.signatureValid && rules.Admits(ev.unit) ==> hashing.hashOf(ev.unit) in s.signed
      modifies this
      ensures Valid() && In(s, durable)
      ensures r == Rejected <==>
        !(rules.Admits(ev.unit) && ev.signatureValid && ev.unit.data == hashing.Commitment(ev.data))
      ensures r == Rejected ==> AsNode(durable) == old(AsNode(durable)) && asked == []
      ensures r != Rejected ==>
        AsNode(durable) == Receive(rules, old(AsNode(durable)), hashing.hashOf(ev.unit), ev.unit)
      ensures r == Duplicate <==> r != Rejected && hashing.hashOf(ev.unit) in old(unitTable)
      ensures r == Admission.Stored ==> unitTable == old(unitTable)[hashing.hashOf(ev.unit) := ev.unit]
      ensures r == Admission.Stored ==> dataTable == old(dataTable)[hashing.hashOf(ev.unit) := ev.data]
      ensures r != Rejected ==> forall h :: h in asked <==>
        Missing(old(unitTable), old(extended), ev.unit, h) && !Recent(old(requestSentAt), h, clock(h))
      ensures Noted(old(requestSentAt), asked, clock, requestSentAt)
    {
      asked := [];
      if !(rules.Admits(ev.unit) && ev.signatureValid && ev.unit.data == hashing.Commitment(ev.data)) {
        return Rejected, asked;
      }
      asked := CascadeParents(ev.unit, clock);
      var hash := hashing.hashOf(ev.unit);
      if Listed(rounds, ev.unit.round, hash) {
        return Duplicate, asked;
      }
      ghost var n := AsNode(durable);
      NewArrival(rules, hashing, s, id, n, dataTable, rounds, ev.unit);
      Install(s, hash, ev.unit, ev.data, false);
      assert AsNode(durable) == Receive(rules, n, hash, ev.unit);
      return Admission.Stored, asked;
    }

    /** Store and take up our own work; nothing is extended yet. */
    method Book(hash: UnitHash, unit: Unit, data: seq<Item>, own: bool)
      requires Valid() && hash !in unitTable && own == (unit.creator == id)
      requires rules.Admits(unit) && hashing.hashOf(unit) == hash && unit.data == hashing.Commitment(data)
      modifies this`unitTable, this`dataTable, this`rounds, this`ownTop, this`unorderedOwnData
      ensures unitTable == old(unitTable)[hash := unit] && extended == Extended(Without(unitTable, hash))
      ensures dataTable == old(dataTable)[hash := data]
      ensures Stocked() && Running()
    {
      EmissionStored(id, unitTable, dataTable, extended, Progress(nextDecideRound, order), emitted, ordered,
                     unorderedOwnData, hash, unit, data);
      StoreUnit(hash, unit, data);
      if own && unit.data.Some? {
        unorderedOwnData := unorderedOwnData + {unit.round};
      }
    }

    /** Store, take up our own work, cascade and drain. */
    method Install(ghost s: Session, hash: UnitHash, unit: Unit, data: seq<Item>, own: bool)
      requires Valid() && hash !in unitTable && own == (unit.creator == id)
      requires rules.Admits(unit) && hashing.hashOf(unit) == hash && unit.data == hashing.Commitment(data)
      requires s.Sound() && s.rules == rules && id !in s.byzantine && Submap(unitTable[hash := unit], s.signed)
      modifies this`unitTable, this`dataTable, this`rounds, this`ownTop, this`extended, this`votes, this`decided,
               this`emitted, this`ordered, this`unorderedOwnData, this`order, this`nextDecideRound
      ensures Valid()
      ensures unitTable == old(unitTable)[hash := unit] && dataTable == old(dataTable)[hash := data]
      ensures Progress(nextDecideRound, order) == RunOver(rules, unitTable, old(Progress(nextDecideRound, order)))
    {
      Book(hash, unit, data, own);
      Advance(hash, s);
    }

    // ----- creating units -----

    /** The lowest-hash extended branch of each creator at `round`. */
    method LowestBranchRow(round: Round) returns (branches: map<NodeId, UnitHash>)
      requires ExtendedIndexed(rounds, extended)
      ensures LowestBranches(extended, round, branches)
    {
      RowOfRound(rounds, extended, round);
      var row := ExtendedAt(rounds, extended, round);
      branches := map[];
      for i := 0 to |row|
        invariant BranchesOf(extended, round, row, i, branches)
      {
        var creator := extended[row[i]].creator;
        BranchStep(extended, round, row, i, branches);
        if creator !in branches {
          branches := branches[creator := row[i]];
        }
      }
      BranchesDone(extended, round, row, branches);
    }

    /** Our own unit a round down plus the lowest-id other creators. */
    method ParentsFor(round: Round)
      returns (parents: Option<map<NodeId, UnitHash>>, ghost branches: map<NodeId, UnitHash>)
      requires ExtendedIndexed(rounds, extended)
      ensures round == 0 ==> parents == Some(map[])
      ensures round > 0 ==> ParentsPicked(id, rules.Threshold(), extended, round - 1, branches, parents)
    {
      branches := map[];
      if round == 0 {
        return Some(map[]), branches;
      }
      var row := LowestBranchRow(round - 1);
      branches := row;
      if id !in row {
        return None, branches;
      }
      var ids := [id] + Ascending(row.Keys - {id});
      var picked := if |ids| < rules.Threshold() then ids else ids[..rules.Threshold()];
      RankingOf(id, row);
      PickedIsChoice(id, rules.Threshold(), row, ids, picked);
      var chosen := map c | c in picked :: row[c];
      return if |chosen| == rules.Threshold() then Some(chosen) else None, branches;
    }

    /** The round our next unit goes to. */
    function NextRound(): Round
      reads this`ownTop
    {
      if ownTop.None? then 0 else ownTop.value.0 + 1
    }

    /** Store, fsync and publish our own next unit. */
    method Sign(ghost s: Session, ghost durable: Units, unit: Unit, data: seq<Item>)
      requires Valid() && In(s, durable)
      requires MayCreate(rules, AsNode(durable), id, unit) && unit.data == hashing.Commitment(data)
      modifies this
      ensures Valid() && In(s.Publish(unit), unitTable)
      ensures hashing.hashOf(unit) !in old(unitTable)
      ensures AsNode(unitTable) == Create(rules, old(AsNode(durable)), hashing.hashOf(unit), unit)
      ensures ownTop.Some? && ownTop.value.0 == unit.round
    {
      ghost var n, hash := AsNode(durable), hashing.hashOf(unit);
      NewOwnUnit(s, id, n, unit);
      Install(s.Publish(unit), hashing.hashOf(unit), unit, data, true);
      TopAfter(id, n.table, unitTable, hash, unit, ownTop);
      assert AsNode(unitTable) == Create(rules, n, hash, unit);
    }

    /** Our next unit, if the round below is ready and there is work. */
    method DraftUnit(ghost n: Node, data: seq<Item>) returns (made: Option<Unit>)
      requires Valid() && n.table == unitTable && id < rules.Total()
      ensures made.None? <==>
        (data == [] && unorderedOwnData == {}) || !ReadyFor(id, rules.Threshold(), extended, NextRound())
      ensures made.Some? ==> MayCreate(rules, n, id, made.value)
      ensures made.Some? ==> made.value.round == NextRound() && made.value.data == hashing.Commitment(data)
      ensures made.Some? ==> WithChosenParents(id, rules.Threshold(), extended, made.value)
    {
      var round := NextRound();
      ExtendedOfIndexed(rounds, unitTable);
      var parents, branches := ParentsFor(round);
      ChoiceReady(id, rules.Threshold(), extended, round, branches, parents);
      if parents == None || (data == [] && unorderedOwnData == {}) {
        return None;
      }
      var unit := Unit(round, id, parents.value, hashing.Commitment(data));
      ChosenMayCreate(rules, id, n, ownTop, branches, unit);
      assert round > 0 ==> PicksFor(id, rules.Threshold(), extended, branches, unit);
      return Some(unit);
    }

    /** Draft, sign, store, fsync and publish our next unit. `data` is what the
        provider would hand out. */
    method TryCreateUnit(ghost s: Session, ghost durable: Units, data: seq<Item>) returns (made: Option<Unit>)
      requires Valid() && In(s, durable)
      modifies this
      ensures Valid()
      ensures made.None? ==> AsNode(durable) == old(AsNode(durable)) && ownTop == old(ownTop)
      ensures made.None? <==> old((data == [] && unorderedOwnData == {})
        || !ReadyFor(id, rules.Threshold(), extended, NextRound()))
      ensures made.Some? ==> MayCreate(rules, old(AsNode(durable)), id, made.value)
      ensures made.Some? ==> In(s.Publish(made.value), unitTable)
      ensures made.Some? ==> made.value.round == old(NextRound()) && made.value.data == hashing.Commitment(data)
      ensures made.Some? ==>
        AsNode(unitTable) == Create(rules, old(AsNode(durable)), hashing.hashOf(made.value), made.value)
      ensures made.Some? ==> ownTop.Some? && ownTop.value.0 == made.value.round
      ensures made.Some? ==> hashing.hashOf(made.value) !in old(unitTable)
      ensures made.Some? ==> WithChosenParents(id, rules.Threshold(), old(extended), made.value)
    {
      made := DraftUnit(AsNode(durable), data);
      if made.Some? {
        Sign(s, durable, made.value, data);
      }
    }

    /** Every round that has become creatable, one unit each. The loop ends: a
        unit above round 0 needs another node's unit a round below. */
    method CreateUnits(ghost s: Session, ghost durable: Units, draws: nat -> seq<Item>)
      returns (made: seq<Unit>, ghost fsynced: Units)
      requires rules.f >= 1 && Valid() && In(s, durable)
      modifies this
      ensures Valid() && In(PublishAll(s, made), fsynced)
      ensures AsNode(fsynced) == CreateAll(rules, hashing.hashOf, old(AsNode(durable)), made)
      ensures MadeInOrder(hashing, made, old(NextRound()), draws)
      ensures (draws(|made|) == [] && unorderedOwnData == {})
        || !ReadyFor(id, rules.Threshold(), extended, NextRound())
    {
      made, fsynced := [], durable;
      ghost var start := NextRound();
      while true
        invariant Valid() && In(PublishAll(s, made), fsynced)
        invariant AsNode(fsynced) == CreateAll(rules, hashing.hashOf, old(AsNode(durable)), made)
        invariant MadeInOrder(hashing, made, start, draws) && NextRound() == start + |made|
        decreases if ownTop.None? then 1 else 0, Ahead(id, unitTable, NextRound())
      {
        ghost var n, round := AsNode(fsynced), NextRound();
        var unit := TryCreateUnit(PublishAll(s, made), fsynced, draws(|made|));
        if unit == None {
          return;
        }
        OneMore(rules, hashing.hashOf, old(AsNode(durable)), s, made, unit.value);
        StillInOrder(hashing, made, start, draws, unit.value);
        if round > 0 {
          AheadShrinks(id, rules.Threshold(), n.table, round, hashing.hashOf(unit.value), unit.value);
        }
        made, fsynced := made + [unit.value], unitTable;
      }
    }

    // ----- starting up -----

    constructor (id: NodeId, rules: Rules, hashing: Hashing, table: Units, data: map<UnitHash, seq<Item>>)
      ensures this.id == id && this.rules == rules && this.hashing == hashing
      ensures unitTable == table && dataTable == data && Blank()
    {
      this.id, this.rules, this.hashing := id, rules, hashing;
      unitTable, dataTable := table, data;
      rounds, extended, emitted, nextDecideRound := map[], map[], {}, 0;
      decided, votes, unorderedOwnData, ownTop, requestSentAt := map[], map[], {}, None, map[];
      ordered, order := [], [];
    }

    /** Nothing rebuilt and nothing sent yet. */
    ghost predicate Blank()
      reads this
    {
      && rounds == map[] && extended == map[] && emitted == {} && nextDecideRound == 0 && decided == map[]
      && votes == map[] && unorderedOwnData == {} && ownTop == None && requestSentAt == map[]
      && ordered == [] && order == []
    }

    /** Rebuild the memory from the tables and send the whole order again. */
    method Replay(ghost s: Session)
      requires Blank() && TablesAgree(rules, hashing, unitTable, dataTable)
      requires s.Sound() && s.rules == rules && id !in s.byzantine && Submap(unitTable, s.signed)
      modifies this
      ensures Valid() && unitTable == old(unitTable) && dataTable == old(dataTable)
      ensures AsNode(unitTable) == Restart(rules, unitTable)
    {
      Reindex();
      ExtendSeeds();
      BlankIsSound(rules, id, unitTable, dataTable);
      Drain(s);
    }

    method Reindex()
      requires rounds == map[] && unorderedOwnData == {} && ownTop == None
      modifies this`rounds, this`unorderedOwnData, this`ownTop
      ensures Reindexed(id, unitTable, rounds, ownTop, unorderedOwnData)
    {
      var units := Ascending(unitTable.Keys);
      AscendingDistinct(unitTable.Keys);
      ReindexStarts(id, unitTable);
      for i := 0 to |units|
        invariant Reindexed(id, Part(unitTable, Elements(units[..i])), rounds, ownTop, unorderedOwnData)
      {
        ReindexStep(id, unitTable, units, i, rounds, ownTop, unorderedOwnData);
        var hash, unit := units[i], unitTable[units[i]];
        rounds := IndexWith(rounds, unit.round, hash);
        unorderedOwnData := PendingWith(id, unorderedOwnData, unit);
        ownTop := TopWith(id, ownTop, hash, unit);
      }
      ReindexEnds(unitTable, units);
    }

    /** Cascade from every round-0 unit. */
    method ExtendSeeds()
      requires Indexed(rounds, unitTable) && Admitted(rules, unitTable) && extended == map[]
      modifies this`extended
      ensures extended == Extended(unitTable)
    {
      var seeds := StoredAt(rounds, 0);
      StoredAtRound(rounds, unitTable, 0);
      StoredAtDistinct(rounds, 0);
      NothingSown(rules, unitTable, seeds);
      for i := 0 to |seeds|
        invariant extended == Extended(Sown(unitTable, Elements(seeds[..i])))
      {
        Sow(unitTable, seeds, i);
        TryExtend(seeds[i], Sown(unitTable, Elements(seeds[..i + 1])));
      }
      AllSown(unitTable, seeds);
    }

    // ----- asking for what is missing -----

    /** Ask for a unit, unless it was asked for within the last second. */
    method TrySendRequest(hash: UnitHash, now: nat) returns (sends: bool)
      modifies this`requestSentAt
      ensures sends <==> hash in old(requestSentAt) ==> old(requestSentAt)[hash] + 1000 <= now
      ensures requestSentAt == if sends then old(requestSentAt)[hash := now] else old(requestSentAt)
    {
      if Recent(requestSentAt, hash, now) {
        return false;
      }
      requestSentAt := requestSentAt[hash := now];
      return true;
    }

    /** Ask for a missing unit the walk has not met before. */
    method AskFor(hash: UnitHash, clock: UnitHash -> nat, asked: seq<UnitHash>, ghost missing: seq<UnitHash>,
                  ghost before: map<UnitHash, nat>) returns (more: seq<UnitHash>)
      requires Throttled(before, missing, clock, asked, requestSentAt) && hash !in missing
      modifies this`requestSentAt
      ensures Throttled(before, missing + [hash], clock, more, requestSentAt)
    {
      DueAre(missing, before, clock);
      DueMore(missing, before, clock, hash);
      ThrottleStands(before, asked, clock, requestSentAt, hash);
      NotedMore(before, asked, clock, requestSentAt, hash);
      var sends := TrySendRequest(hash, clock(hash));
      return if sends then asked + [hash] else asked;
    }

    /** One turn of the walk: the popped hash is skipped if it was met before or
        is extended, asked for if it is not held, and else its parents stacked. */
    method Turn(stack: seq<UnitHash>, visited: set<UnitHash>, asked: seq<UnitHash>, clock: UnitHash -> nat,
                ghost top: Unit, ghost missing: seq<UnitHash>, ghost before: map<UnitHash, nat>)
      returns (todo: seq<UnitHash>, met: set<UnitHash>, more: seq<UnitHash>, ghost found: seq<UnitHash>)
      requires stack != [] && Walked(unitTable, extended, top, visited, Elements(stack), missing)
      requires Throttled(before, missing, clock, asked, requestSentAt)
      modifies this`requestSentAt
      ensures Walked(unitTable, extended, top, met, Elements(todo), found)
      ensures Throttled(before, found, clock, more, requestSentAt)
      ensures Unmet(unitTable, top, met) < Unmet(unitTable, top, visited) || (met == visited && |todo| < |stack|)
    {
      var rest, hash := stack[..|stack| - 1], stack[|stack| - 1];
      Popped(stack);
      if hash in visited {
        WalkRepeats(unitTable, extended, top, visited, Elements(rest), missing, hash);
        return rest, visited, asked, missing;
      }
      WalkShrinks(unitTable, extended, top, visited, Elements(rest), missing, hash);
      WalkVisits(unitTable, extended, top, visited, Elements(rest), missing, hash);
      met := visited + {hash};
      if hash in extended {
        return rest, met, asked, missing;
      }
      if hash !in unitTable {
        more := AskFor(hash, clock, asked, missing, before);
        return rest, met, more, missing + [hash];
      }
      Stacked(rest, unitTable[hash]);
      return rest + ParentWalk(unitTable[hash]), met, asked, missing;
    }

    /** Walk down from `top` through held units not yet extended and ask for the
        ones not held, none twice within a second. */
    method CascadeParents(top: Unit, clock: UnitHash -> nat) returns (asked: seq<UnitHash>)
      modifies this`requestSentAt
      ensures Distinct(asked)
      ensures forall h :: h in asked <==>
        Missing(unitTable, extended, top, h) && !Recent(old(requestSentAt), h, clock(h))
      ensures Noted(old(requestSentAt), asked, clock, requestSentAt)
    {
      var visited: set<UnitHash>, stack := {}, ParentWalk(top);
      asked := [];
      ghost var missing: seq<UnitHash>, before := [], requestSentAt;
      WalkStarts(unitTable, extended, top);
      WalkOfParents(top);
      while stack != []
        invariant Walked(unitTable, extended, top, visited, Elements(stack), missing)
        invariant Throttled(before, missing, clock, asked, requestSentAt)
        decreases Unmet(unitTable, top, visited), |stack|
      {
        stack, visited, asked, missing := Turn(stack, visited, asked, clock, top, missing, before);
      }
      WalkAsked(unitTable, extended, top, visited, missing, before, clock);
    }

    /** One elected head: sweep, send, advance. */
    method EmitHead(head: UnitHash)
      requires EmissionSound(id, unitTable, dataTable, extended, Progress(nextDecideRound, order), emitted, ordered,
                             unorderedOwnData)
      requires Rooted(extended) && OwnSingle(id, unitTable)
      requires head in extended && extended[head].round == nextDecideRound
      modifies this`emitted, this`ordered, this`unorderedOwnData, this`order, this`nextDecideRound
      ensures EmissionSound(id, unitTable, dataTable, extended, Progress(nextDecideRound, order), emitted, ordered,
                            unorderedOwnData)
      ensures Progress(nextDecideRound, order) == Emit(extended, old(Progress(nextDecideRound, order)), head)
    {
      EmitParts(extended, Progress(nextDecideRound, order), head);
      var batch := BfsBatch(head);
      HeldBatch(unitTable, dataTable, extended, order + batch);
      SendBatch(batch);
      nextDecideRound := nextDecideRound + 1;
    }
  }

  /** How far a node is: every round below the next to elect has its head, that
      one has none yet, and what is handed on is exactly the ancestry of those
      heads. */
  lemma ProgressIs(e: Engine, s: Session, durable: Units, x: UnitHash)
    requires e.Valid() && e.In(s, durable)
    ensures Rooted(e.extended) && Head(e.rules, e.extended, e.nextDecideRound).None?
    ensures forall r :: 0 <= r < e.nextDecideRound ==> Head(e.rules, e.extended, r).Some?
    ensures x in e.order <==> UnderHead(e.rules, e.extended, 0, e.nextDecideRound, x)
  {
    ExtendedRooted(e.unitTable);
    RunExhausts(e.rules, e.extended, Start);
    RunEmitsAncestry(e.rules, e.extended, Start, x);
  }

  /** The next round to create in is the least above all of our own. */
  lemma NextRoundIs(e: Engine)
    requires e.Valid()
    ensures forall h :: h in e.unitTable && e.unitTable[h].creator == e.id ==> e.unitTable[h].round < e.NextRound()
    ensures e.NextRound() > 0 ==>
      exists h :: h in e.unitTable && e.unitTable[h].creator == e.id && e.unitTable[h].round == e.NextRound() - 1
  {
  }

  /** What a node has handed on: the payloads of its causal order, item by item,
      each with the round and the creator of its unit. */
  lemma ChannelCarries(e: Engine)
    requires e.Valid()
    ensures AllHeld(e.unitTable, e.dataTable, e.order)
    ensures |e.ordered| == |Payloads(e.dataTable, e.order)| == |Origins(e.dataTable, e.order)|
    ensures forall i :: 0 <= i < |e.ordered| ==>
      var origin := Origins(e.dataTable, e.order)[i];
      && origin in e.order
      && e.ordered[i].0 == e.unitTable[origin].round && e.ordered[i].1 == e.unitTable[origin].creator
      && e.ordered[i].2 == Payloads(e.dataTable, e.order)[i]
  {
    HeldBatch(e.unitTable, e.dataTable, e.extended, e.order);
    SentCarries(e.unitTable, e.dataTable, e.order);
    forall i | 0 <= i < |e.ordered|
      ensures Origins(e.dataTable, e.order)[i] in e.order
      ensures var origin := Origins(e.dataTable, e.order)[i];
        e.ordered[i] == (e.unitTable[origin].round, e.unitTable[origin].creator, Payloads(e.dataTable, e.order)[i])
    {
      assert CarriesAt(e.unitTable, e.dataTable, e.order, i);
    }
  }

  /** Our own rounds still to be ordered: those of our units with a payload that
      has not been handed on. */
  lemma PendingOwn(e: Engine, round: Round)
    requires e.Valid()
    ensures round in e.unorderedOwnData <==> exists h ::
      h in e.unitTable && h in e.dataTable && e.unitTable[h].creator == e.id && e.unitTable[h].round == round
      && e.dataTable[h] != [] && h !in e.order
  {
    forall h | h in e.unitTable ensures h in e.dataTable && (e.unitTable[h].data.Some? <==> e.dataTable[h] != []) {
      assert Pinned(e.hashing, h, e.unitTable[h], e.dataTable);
    }
  }

  /** Total-order agreement down to the items: of two nodes of one session, each
      at any point of its run, one has handed on all that the other has, in the
      same order, for as long as payload digests do not collide. */
  lemma EnginesAgree(a: Engine, b: Engine, s: Session, da: Units, db: Units)
    requires a.Valid() && a.In(s, da) && b.Valid() && b.In(s, db) && a.hashing == b.hashing
    requires forall x: seq<Item>, y: seq<Item> :: a.hashing.digestOf(x) == a.hashing.digestOf(y) ==> x == y
    ensures if a.nextDecideRound <= b.nextDecideRound then a.ordered <= b.ordered else b.ordered <= a.ordered
  {
    var w := s.World();
    SoundWorld(s);
    TableHolds(s, a.unitTable);
    TableHolds(s, b.unitTable);
    OrdersAgree(w, a.extended, b.extended, Start);
    HeldBatch(a.unitTable, a.dataTable, a.extended, a.order);
    HeldBatch(b.unitTable, b.dataTable, b.extended, b.order);
    if a.nextDecideRound <= b.nextDecideRound {
      ChannelsAgree(s.rules, a.hashing, a.unitTable, a.dataTable, b.unitTable, b.dataTable, s.signed, a.order, b.order);
    } else {
      ChannelsAgree(s.rules, a.hashing, b.unitTable, b.dataTable, a.unitTable, a.dataTable, s.signed, b.order, a.order);
    }
  }
}

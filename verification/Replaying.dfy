/** Rebuilding the engine's memory from its tables: the index and cursors unit
    by unit, the extended set seed by seed. */
module Replaying {
  import opened Ordered
  import opened Dag
  import opened Ordering
  import opened Extension
  import opened Storing
  import opened Deciding
  import opened Emitting

  /** The rows of a table under the given hashes. */
  ghost function Part(table: Units, hashes: set<UnitHash>): Units {
    map h | h in table && h in hashes :: table[h]
  }

  /** Index, own-column cursor and pending rounds agree with the rows read so far. */
  ghost predicate Reindexed(id: NodeId, part: Units, rounds: map<Round, set<UnitHash>>,
                            top: Option<(Round, UnitHash)>, pending: set<Round>)
  {
    Indexed(rounds, part) && IsOwnTop(id, part, top) && pending == Pending(id, part, {})
  }

  lemma ReindexStarts(id: NodeId, table: Units)
    ensures Reindexed(id, Part(table, {}), map[], None, {})
  {
    assert Part(table, {}) == map[];
  }

  lemma ReindexStep(id: NodeId, table: Units, units: seq<UnitHash>, i: nat, rounds: map<Round, set<UnitHash>>,
                    top: Option<(Round, UnitHash)>, pending: set<Round>)
    requires i < |units| && Distinct(units) && forall h :: h in units ==> h in table
    requires Reindexed(id, Part(table, Elements(units[..i])), rounds, top, pending)
    ensures units[i] in table
    ensures var h, u := units[i], table[units[i]];
      Reindexed(id, Part(table, Elements(units[..i + 1])), IndexWith(rounds, u.round, h), TopWith(id, top, h, u),
                PendingWith(id, pending, u))
  {
    var h := units[i];
    assert h in units;
    var part := Part(table, Elements(units[..i]));
    VisitOne(units, i);
    assert h !in part;
    assert Part(table, Elements(units[..i + 1])) == part[h := table[h]];
    IndexStore(rounds, part, h, table[h]);
    OwnTopStore(id, part, top, h, table[h]);
    PendingStored(id, part, {}, h, table[h]);
  }

  lemma ReindexEnds(table: Units, units: seq<UnitHash>)
    requires forall h :: h in table ==> h in units
    ensures Part(table, Elements(units[..|units|])) == table
  {
    assert units[..|units|] == units;
  }

  /** The table as far as the seeds tried: all of it but the round-0 units left. */
  ghost function Sown(table: Units, seeds: set<UnitHash>): Units {
    map h | h in table && (table[h].round > 0 || h in seeds) :: table[h]
  }

  /** Without a round-0 unit nothing rests on anything. */
  lemma {:induction false} NothingWithoutSeeds(rules: Rules, table: Units, h: UnitHash)
    requires Admitted(rules, table) && h in table && forall g :: g in table ==> table[g].round > 0
    ensures !Extendable(table, h)
    decreases table[h].round
  {
    assert rules.Admits(table[h]) && table[h].parents.Keys != {};
    var c :| c in table[h].parents;
    if Linked(table, h, c) {
      NothingWithoutSeeds(rules, table, table[h].parents[c]);
    }
  }

  lemma NothingSown(rules: Rules, table: Units, seeds: seq<UnitHash>)
    requires Admitted(rules, table)
    ensures Extended(Sown(table, Elements(seeds[..0]))) == map[]
  {
    assert Elements(seeds[..0]) == {};
    var t := Sown(table, {});
    forall h | h in t ensures rules.Admits(t[h]) {
      assert rules.Admits(table[h]);
    }
    forall h | h in t ensures !Extendable(t, h) {
      NothingWithoutSeeds(rules, t, h);
    }
  }

  /** One more seed. */
  lemma Sow(table: Units, seeds: seq<UnitHash>, i: nat)
    requires i < |seeds| && Distinct(seeds) && forall h :: h in seeds <==> h in table && table[h].round == 0
    ensures var h, sown := seeds[i], Sown(table, Elements(seeds[..i + 1]));
      && h in table && table[h].round == 0 && h in sown && Submap(sown, table)
      && Without(sown, h) == Sown(table, Elements(seeds[..i]))
      && forall g :: g in table && table[g].round > 0 ==> g in sown
  {
    var h, less, sown := seeds[i], Sown(table, Elements(seeds[..i])), Sown(table, Elements(seeds[..i + 1]));
    assert h in seeds;
    VisitOne(seeds, i);
    assert h !in less;
    assert Without(sown, h) == less;
  }

  lemma AllSown(table: Units, seeds: seq<UnitHash>)
    requires forall h :: h in seeds <==> h in table && table[h].round == 0
    ensures Sown(table, Elements(seeds[..|seeds|])) == table
  {
    assert seeds[..|seeds|] == seeds;
  }

  lemma AscendingDistinct(s: set<UnitHash>)
    ensures Distinct(Ascending(s))
  {
    AscendingRises(s);
  }

  lemma StoredAtDistinct(rounds: map<Round, set<UnitHash>>, round: Round)
    ensures Distinct(StoredAt(rounds, round))
  {
    if round in rounds {
      AscendingDistinct(rounds[round]);
    }
  }

  /** Fresh caches and an empty channel are sound over any extended set. */
  lemma BlankIsSound(rules: Rules, id: NodeId, table: Units, data: map<UnitHash, seq<Item>>)
    requires data.Keys == table.Keys
    ensures CachesSound(rules, Extended(table), map[], map[])
    ensures EmissionSound(id, table, data, Extended(table), Start, {}, [], Pending(id, table, {}))
  {
    ExtendedRooted(table);
    assert Elements<UnitHash>([]) == {};
  }
}

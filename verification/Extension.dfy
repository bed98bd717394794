/** Promotion from stored to extended: the rule, its least fixpoint over a unit
    table, and why the round-by-round cascade may stop at the first idle round. */
module Extension {
  import opened Dag

  /** The extension rule: `h` is stored and every parent entry names an extended
      unit of that creator exactly one round down. */
  predicate Placed(table: Units, extended: Units, h: UnitHash) {
    h in table && forall c :: c in table[h].parents ==> PlacedUnder(table, extended, h, c)
  }

  predicate PlacedUnder(table: Units, extended: Units, h: UnitHash, c: NodeId)
    requires h in table && c in table[h].parents
  {
    var p := table[h].parents[c];
    p in extended && extended[p].creator == c && extended[p].round + 1 == table[h].round
  }

  /** `h` and all it rests on are stored and well placed, down to round 0. */
  ghost predicate Extendable(table: Units, h: UnitHash)
    requires h in table
    decreases table[h].round
  {
    forall c :: c in table[h].parents ==> Linked(table, h, c) && Extendable(table, table[h].parents[c])
  }

  /** What a node holding `table` ends up extending. */
  ghost function Extended(table: Units): (e: Units)
    ensures forall h :: h in e <==> h in table && Extendable(table, h)
    ensures Submap(e, table)
  {
    map h | h in table && Extendable(table, h) :: table[h]
  }

  lemma ExtendedRooted(table: Units)
    ensures Rooted(Extended(table))
  {
    var e := Extended(table);
    forall h, c | h in e && c in e[h].parents ensures Linked(e, h, c) {
      assert Linked(table, h, c) && Extendable(table, table[h].parents[c]);
    }
  }

  /** The extended set is a fixpoint of the extension rule. */
  lemma ExtendedFixpoint(table: Units, h: UnitHash)
    ensures h in Extended(table) <==> Placed(table, Extended(table), h)
  {
    var e := Extended(table);
    if Placed(table, e, h) {
      forall c | c in table[h].parents
        ensures Linked(table, h, c) && Extendable(table, table[h].parents[c])
      {
        assert table[h].parents[c] in e;
      }
    }
    if h in e {
      forall c | c in table[h].parents ensures PlacedUnder(table, e, h, c) {
        assert Linked(table, h, c) && Extendable(table, table[h].parents[c]);
      }
    }
  }

  /** It is the least set closed under the rule. */
  lemma {:induction false} ExtendedLeast(table: Units, closed: Units, h: UnitHash)
    requires Submap(closed, table)
    requires forall g :: Placed(table, closed, g) ==> g in closed
    requires h in Extended(table)
    ensures h in closed
    decreases table[h].round
  {
    forall c | c in table[h].parents
      ensures PlacedUnder(table, closed, h, c)
    {
      assert Linked(table, h, c);
      ExtendedLeast(table, closed, table[h].parents[c]);
    }
    assert Placed(table, closed, h);
  }

  /** And the greatest parent-closed well-placed part of the table. */
  lemma {:induction false} ExtendedGreatest(table: Units, rooted: Units, h: UnitHash)
    requires Submap(rooted, table) && Rooted(rooted) && h in rooted
    ensures h in Extended(table)
    decreases table[h].round
  {
    forall c | c in table[h].parents
      ensures Linked(table, h, c) && Extendable(table, table[h].parents[c])
    {
      assert Linked(rooted, h, c);
      ExtendedGreatest(table, rooted, table[h].parents[c]);
    }
  }

  /** More stored units never retract an extension. */
  lemma ExtendedGrows(table: Units, larger: Units)
    requires Submap(table, larger)
    ensures Submap(Extended(table), Extended(larger))
  {
    ExtendedRooted(table);
    forall h | h in Extended(table) ensures h in Extended(larger) {
      ExtendedGreatest(larger, Extended(table), h);
    }
  }

  /** A unit stored on top of extended parents is extended at once. */
  lemma PlacedExtends(table: Units, h: UnitHash, u: Unit)
    requires h !in table && Placed(table[h := u], Extended(table), h)
    ensures h in Extended(table[h := u])
  {
    var larger := table[h := u];
    ExtendedGrows(table, larger);
    assert Placed(larger, Extended(larger), h);
    ExtendedFixpoint(larger, h);
  }

  // ----- the cascade after one more unit -----

  /** `table` without the unit just stored. */
  ghost function Without(table: Units, h: UnitHash): (t: Units)
    ensures t.Keys == table.Keys - {h} && Submap(t, table)
  {
    map g | g in table && g != h :: table[g]
  }

  /** Up to its own round, a new unit affects only itself. */
  lemma {:induction false} LowRoundsUnaffected(table: Units, new_: UnitHash, h: UnitHash)
    requires new_ in table && h in table && h != new_ && table[h].round <= table[new_].round
    ensures Extendable(table, h) <==> Extendable(Without(table, new_), h)
    decreases table[h].round
  {
    var t := Without(table, new_);
    forall c | c in table[h].parents && Linked(table, h, c)
      ensures Linked(t, h, c)
      ensures Extendable(table, table[h].parents[c]) <==> Extendable(t, table[h].parents[c])
    {
      LowRoundsUnaffected(table, new_, table[h].parents[c]);
    }
  }

  /** If the new unit is not placed, nothing changes. */
  lemma UnplacedChangesNothing(table: Units, new_: UnitHash)
    requires new_ in table && !Placed(table, Extended(Without(table, new_)), new_)
    ensures Extended(table) == Extended(Without(table, new_))
  {
    var t := Without(table, new_);
    if Extendable(table, new_) {
      ExtendableIsPlaced(table, new_);
    }
    forall h | h in table && Extendable(table, h) ensures h in t && Extendable(t, h) {
      WithoutUnextendable(table, new_, h);
    }
    ExtendedGrows(t, table);
    assert forall h :: h in Extended(t) ==> h in Extended(table);
    assert forall h :: h in Extended(table) <==> h in Extended(t);
  }

  lemma ExtendableIsPlaced(table: Units, new_: UnitHash)
    requires new_ in table && Extendable(table, new_)
    ensures Placed(table, Extended(Without(table, new_)), new_)
  {
    var t := Without(table, new_);
    forall c | c in table[new_].parents ensures PlacedUnder(table, Extended(t), new_, c) {
      assert Linked(table, new_, c);
      LowRoundsUnaffected(table, new_, table[new_].parents[c]);
    }
  }

  lemma {:induction false} WithoutUnextendable(table: Units, new_: UnitHash, h: UnitHash)
    requires new_ in table && !Extendable(table, new_) && h in table && Extendable(table, h)
    ensures h != new_ && Extendable(Without(table, new_), h)
    decreases table[h].round
  {
    var t := Without(table, new_);
    forall c | c in table[h].parents ensures Linked(t, h, c) && Extendable(t, table[h].parents[c]) {
      assert Linked(table, h, c);
      WithoutUnextendable(table, new_, table[h].parents[c]);
    }
  }

  /** Where the cascade stands: below round `k` it is complete, from `k` up
      nothing has been added to `before`. */
  ghost predicate CascadedBelow(table: Units, before: Units, extended: Units, k: Round) {
    && Submap(extended, table) && Submap(before, table)
    && forall h :: h in table ==>
         (h in extended <==> if table[h].round < k then Extendable(table, h) else h in before)
  }

  lemma CascadeStarts(table: Units, new_: UnitHash, before: Units, extended: Units)
    requires new_ in table && before == Extended(Without(table, new_)) && Placed(table, before, new_)
    requires extended == before[new_ := table[new_]]
    ensures CascadedBelow(table, before, extended, table[new_].round + 1)
    ensures new_ in Extended(table)
  {
    forall c | c in table[new_].parents
      ensures Linked(table, new_, c) && Extendable(table, table[new_].parents[c])
    {
      var p := table[new_].parents[c];
      assert p in before;
      LowRoundsUnaffected(table, new_, p);
    }
    forall h | h in table && table[h].round < table[new_].round + 1
      ensures h in extended <==> Extendable(table, h)
    {
      if h != new_ {
        LowRoundsUnaffected(table, new_, h);
      }
    }
  }

  ghost predicate BelowComplete(table: Units, extended: Units, k: Round) {
    Submap(extended, table) && forall h ::
      h in table && table[h].round < k ==> (h in extended <==> Extendable(table, h))
  }

  /** With the rounds below `k` complete, the rule applied at `k` is exact. */
  lemma PlacedIsExtendable(table: Units, extended: Units, k: Round, h: UnitHash)
    requires BelowComplete(table, extended, k) && h in table && table[h].round == k
    ensures Placed(table, extended, h) <==> Extendable(table, h)
  {
    if Placed(table, extended, h) {
      forall c | c in table[h].parents
        ensures Linked(table, h, c) && Extendable(table, table[h].parents[c])
      {
        var p := table[h].parents[c];
        assert p in extended;
      }
    }
    if Extendable(table, h) {
      forall c | c in table[h].parents ensures PlacedUnder(table, extended, h, c) {
        assert Linked(table, h, c);
      }
    }
  }

  /** Part way through the sweep of round `k`, with the units in `visited` tried. */
  ghost predicate MidSweep(table: Units, before: Units, extended: Units, k: Round, visited: set<UnitHash>) {
    && BelowComplete(table, extended, k) && Submap(before, table)
    && (forall h :: h in before ==> Extendable(table, h))
    && forall h :: h in table && table[h].round >= k ==>
         (h in extended <==> h in before || (table[h].round == k && h in visited && Extendable(table, h)))
  }

  /** Trying one more unit of the round. */
  lemma SweepVisits(table: Units, before: Units, extended: Units, k: Round, visited: set<UnitHash>, h: UnitHash)
    requires MidSweep(table, before, extended, k, visited) && h in table && table[h].round == k
    ensures Placed(table, extended, h) ==> MidSweep(table, before, extended[h := table[h]], k, visited + {h})
    ensures h in extended || !Placed(table, extended, h) ==> MidSweep(table, before, extended, k, visited + {h})
  {
    PlacedIsExtendable(table, extended, k, h);
  }

  lemma SweepOpens(table: Units, new_: UnitHash, before: Units, extended: Units, k: Round)
    requires new_ in table && before == Extended(Without(table, new_)) && CascadedBelow(table, before, extended, k)
    ensures MidSweep(table, before, extended, k, {})
  {
    ExtendedGrows(Without(table, new_), table);
    forall h | h in before ensures Extendable(table, h) {
      assert h in Extended(table);
    }
  }

  lemma SweepCloses(table: Units, before: Units, extended: Units, k: Round, visited: set<UnitHash>)
    requires MidSweep(table, before, extended, k, visited)
    requires forall h :: h in table && table[h].round == k ==> h in visited
    ensures CascadedBelow(table, before, extended, k + 1)
  {
  }

  /** The early stop misses nothing: a round above the new unit's that gained
      no extension cuts every higher round off from the new unit. */
  lemma {:induction false} IdleRoundCutsOff(table: Units, new_: UnitHash, k: Round, h: UnitHash)
    requires new_ in table && table[new_].round < k
    requires forall g ::
      g in table && table[g].round == k && Extendable(table, g) ==> Extendable(Without(table, new_), g)
    requires h in table && table[h].round >= k && Extendable(table, h)
    ensures Extendable(Without(table, new_), h)
    decreases table[h].round
  {
    var t := Without(table, new_);
    if table[h].round > k {
      forall c | c in table[h].parents ensures Linked(t, h, c) && Extendable(t, table[h].parents[c]) {
        assert Linked(table, h, c);
        IdleRoundCutsOff(table, new_, k, table[h].parents[c]);
      }
    }
  }

  /** A sweep that added nothing ends the cascade at the fixpoint. */
  lemma CascadeDone(table: Units, new_: UnitHash, before: Units, extended: Units, k: Round)
    requires new_ in table && table[new_].round < k && before == Extended(Without(table, new_))
    requires CascadedBelow(table, before, extended, k) && CascadedBelow(table, before, extended, k + 1)
    ensures extended == Extended(table)
  {
    forall h | h in table ensures h in extended <==> Extendable(table, h) {
      if table[h].round > k {
        if Extendable(table, h) {
          IdleRoundCutsOff(table, new_, k, h);
        }
        if h in before {
          ExtendedGrows(Without(table, new_), table);
        }
      }
    }
    assert extended.Keys == Extended(table).Keys;
  }
}

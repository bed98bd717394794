/** The walk for missing ancestors: which units it asks for, and what it means
    when it asks for none. */
module Walking {
  import opened Dag
  import opened Ordering
  import opened Extension

  /** The walk goes through units whose parent set is known but not complete. */
  predicate Opens(table: Units, extended: Units, h: UnitHash) {
    h in table && h !in extended
  }

  function ParentSet(u: Unit): set<UnitHash> {
    set c | c in u.parents :: u.parents[c]
  }

  ghost predicate Follows(table: Units, extended: Units, g: UnitHash, h: UnitHash) {
    Opens(table, extended, g) && h in ParentSet(table[g])
  }

  /** A descent from a parent of `top` to `h`, through opened units only. */
  ghost predicate IsDescent(table: Units, extended: Units, top: Unit, path: seq<UnitHash>, h: UnitHash) {
    && path != [] && path[0] in ParentSet(top) && path[|path| - 1] == h
    && forall i :: 0 <= i < |path| - 1 ==> Follows(table, extended, path[i], path[i + 1])
  }

  ghost predicate Reached(table: Units, extended: Units, top: Unit, h: UnitHash) {
    exists path :: IsDescent(table, extended, top, path, h)
  }

  /** The frontier to ask for: reached, and nothing is held under the hash. */
  ghost predicate Missing(table: Units, extended: Units, top: Unit, h: UnitHash) {
    Reached(table, extended, top, h) && h !in table && h !in extended
  }

  lemma ReachesParents(table: Units, extended: Units, top: Unit)
    ensures forall p :: p in ParentSet(top) ==> Reached(table, extended, top, p)
  {
    forall p | p in ParentSet(top) ensures Reached(table, extended, top, p) {
      assert IsDescent(table, extended, top, [p], p);
    }
  }

  lemma ReachesOn(table: Units, extended: Units, top: Unit, g: UnitHash)
    requires Reached(table, extended, top, g) && Opens(table, extended, g)
    ensures forall h :: h in ParentSet(table[g]) ==> Reached(table, extended, top, h)
  {
    var path :| IsDescent(table, extended, top, path, g);
    forall h | h in ParentSet(table[g]) ensures Reached(table, extended, top, h) {
      var longer := path + [h];
      forall i | 0 <= i < |longer| - 1 ensures Follows(table, extended, longer[i], longer[i + 1]) {
        if i < |path| - 1 {
          assert Follows(table, extended, path[i], path[i + 1]);
        }
      }
      assert IsDescent(table, extended, top, longer, h);
    }
  }

  /** A set with the parents of `top` that the walk does not leave. */
  ghost predicate Closed(table: Units, extended: Units, top: Unit, s: set<UnitHash>) {
    ParentSet(top) <= s && forall g :: g in s && Opens(table, extended, g) ==> ParentSet(table[g]) <= s
  }

  lemma {:induction false} DescentStays(table: Units, extended: Units, top: Unit, s: set<UnitHash>, path: seq<UnitHash>,
                                        h: UnitHash)
    requires Closed(table, extended, top, s) && IsDescent(table, extended, top, path, h)
    ensures h in s
    decreases |path|
  {
    if |path| > 1 {
      var shorter, g := path[..|path| - 1], path[|path| - 2];
      assert Follows(table, extended, path[|path| - 2], path[|path| - 1]);
      forall i | 0 <= i < |shorter| - 1 ensures Follows(table, extended, shorter[i], shorter[i + 1]) {
        assert Follows(table, extended, path[i], path[i + 1]);
      }
      DescentStays(table, extended, top, s, shorter, g);
    }
  }

  // ----- the stack loop -----

  /** All hashes the walk can come across. */
  ghost function Mentioned(table: Units, top: Unit): set<UnitHash> {
    ParentSet(top) + set h, c | h in table && c in table[h].parents :: table[h].parents[c]
  }

  /** How many of them the walk has not met. */
  ghost function Unmet(table: Units, top: Unit, visited: set<UnitHash>): nat {
    |Mentioned(table, top) - visited|
  }

  /** What the loop keeps: `todo` are the hashes on the stack. */
  ghost predicate Walked(table: Units, extended: Units, top: Unit, visited: set<UnitHash>, todo: set<UnitHash>,
                         asked: seq<UnitHash>)
  {
    Explored(table, extended, top, visited, visited + todo) && Asks(table, extended, visited, asked)
  }

  ghost predicate Explored(table: Units, extended: Units, top: Unit, visited: set<UnitHash>, known: set<UnitHash>) {
    && ParentSet(top) <= known && visited <= known && known <= Mentioned(table, top)
    && (forall h {:trigger Reached(table, extended, top, h)} :: h in known ==> Reached(table, extended, top, h))
    && forall g {:trigger Opens(table, extended, g)} ::
         g in visited && Opens(table, extended, g) ==> ParentSet(table[g]) <= known
  }

  ghost predicate Asks(table: Units, extended: Units, visited: set<UnitHash>, asked: seq<UnitHash>) {
    Distinct(asked) && forall h :: h in asked <==> h in visited && h !in table && h !in extended
  }

  lemma WalkStarts(table: Units, extended: Units, top: Unit)
    ensures Walked(table, extended, top, {}, ParentSet(top), [])
  {
    ReachesParents(table, extended, top);
  }

  /** A popped hash that is extended, or not held, ends its branch. */
  lemma WalkPops(table: Units, extended: Units, top: Unit, visited: set<UnitHash>, todo: set<UnitHash>,
                 asked: seq<UnitHash>, h: UnitHash)
    requires Walked(table, extended, top, visited, todo + {h}, asked) && h !in visited && !Opens(table, extended, h)
    ensures Walked(table, extended, top, visited + {h}, todo, if h in extended then asked else asked + [h])
  {
    assert (visited + {h}) + todo == visited + (todo + {h});
    if h !in extended {
      AsksOne(table, extended, visited, asked, h);
    }
  }

  lemma AsksOne(table: Units, extended: Units, visited: set<UnitHash>, asked: seq<UnitHash>, h: UnitHash)
    requires Asks(table, extended, visited, asked) && h !in visited && h !in table && h !in extended
    ensures Asks(table, extended, visited + {h}, asked + [h])
  {
    StillDistinct(asked, [h]);
  }

  /** One that is held but not extended puts its parents on the stack. */
  lemma WalkOpens(table: Units, extended: Units, top: Unit, visited: set<UnitHash>, todo: set<UnitHash>,
                  asked: seq<UnitHash>, h: UnitHash)
    requires Walked(table, extended, top, visited, todo + {h}, asked) && h !in visited && Opens(table, extended, h)
    ensures Walked(table, extended, top, visited + {h}, todo + ParentSet(table[h]), asked)
  {
    var known := visited + (todo + {h});
    assert (visited + {h}) + (todo + ParentSet(table[h])) == known + ParentSet(table[h]);
    ExploresOne(table, extended, top, visited, known, h);
  }

  lemma ExploresOne(table: Units, extended: Units, top: Unit, visited: set<UnitHash>, known: set<UnitHash>, h: UnitHash)
    requires Explored(table, extended, top, visited, known) && h in known && Opens(table, extended, h)
    ensures Explored(table, extended, top, visited + {h}, known + ParentSet(table[h]))
  {
    assert Reached(table, extended, top, h);
    ReachesOn(table, extended, top, h);
    assert ParentSet(table[h]) <= Mentioned(table, top);
  }

  lemma WalkShrinks(table: Units, extended: Units, top: Unit, visited: set<UnitHash>, todo: set<UnitHash>,
                    asked: seq<UnitHash>, h: UnitHash)
    requires Walked(table, extended, top, visited, todo + {h}, asked) && h !in visited
    ensures Unmet(table, top, visited + {h}) < Unmet(table, top, visited)
  {
    assert h in visited + (todo + {h});
    assert Mentioned(table, top) - visited == Mentioned(table, top) - (visited + {h}) + {h};
  }

  lemma WalkRepeats(table: Units, extended: Units, top: Unit, visited: set<UnitHash>, todo: set<UnitHash>,
                    asked: seq<UnitHash>, h: UnitHash)
    requires Walked(table, extended, top, visited, todo + {h}, asked) && h in visited
    ensures Walked(table, extended, top, visited, todo, asked)
  {
    assert visited + todo == visited + (todo + {h});
  }

  /** A hash popped for the first time, in its three cases. */
  lemma WalkVisits(table: Units, extended: Units, top: Unit, visited: set<UnitHash>, todo: set<UnitHash>,
                   asked: seq<UnitHash>, h: UnitHash)
    requires Walked(table, extended, top, visited, todo + {h}, asked) && h !in visited
    ensures h in extended ==> Walked(table, extended, top, visited + {h}, todo, asked)
    ensures h !in extended && h !in table ==>
      h !in asked && Walked(table, extended, top, visited + {h}, todo, asked + [h])
    ensures h !in extended && h in table ==>
      Walked(table, extended, top, visited + {h}, todo + ParentSet(table[h]), asked)
  {
    if Opens(table, extended, h) {
      WalkOpens(table, extended, top, visited, todo, asked, h);
    } else {
      WalkPops(table, extended, top, visited, todo, asked, h);
    }
  }

  lemma WalkEnds(table: Units, extended: Units, top: Unit, visited: set<UnitHash>, asked: seq<UnitHash>)
    requires Walked(table, extended, top, visited, {}, asked)
    ensures forall h :: h in asked <==> Missing(table, extended, top, h)
  {
    assert visited + {} == visited;
    forall h | Missing(table, extended, top, h) ensures h in asked {
      var path :| IsDescent(table, extended, top, path, h);
      DescentStays(table, extended, top, visited, path, h);
    }
  }

  // ----- the throttle -----

  /** The unit was asked for less than a second before, in milliseconds. */
  predicate Recent(sentAt: map<UnitHash, nat>, h: UnitHash, now: nat) {
    h in sentAt && now < sentAt[h] + 1000
  }

  /** The missing units that are asked for; the clock is read for each anew. */
  function Due(missing: seq<UnitHash>, sentAt: map<UnitHash, nat>, clock: UnitHash -> nat): seq<UnitHash> {
    if missing == [] then [] else
      var h := missing[|missing| - 1];
      Due(missing[..|missing| - 1], sentAt, clock) + if Recent(sentAt, h, clock(h)) then [] else [h]
  }

  lemma {:induction false} DueAre(missing: seq<UnitHash>, sentAt: map<UnitHash, nat>, clock: UnitHash -> nat)
    ensures forall h :: h in Due(missing, sentAt, clock) <==> h in missing && !Recent(sentAt, h, clock(h))
    ensures Distinct(missing) ==> Distinct(Due(missing, sentAt, clock))
    decreases |missing|
  {
    if missing != [] {
      var n := |missing| - 1;
      assert missing == missing[..n] + [missing[n]];
      DueAre(missing[..n], sentAt, clock);
    }
  }

  /** Each unit asked for is noted with its time, and no other. */
  ghost predicate Noted(before: map<UnitHash, nat>, asked: seq<UnitHash>, clock: UnitHash -> nat,
                        after: map<UnitHash, nat>)
  {
    && after.Keys == before.Keys + Elements(asked)
    && forall h :: h in after ==> after[h] == if h in asked then clock(h) else before[h]
  }

  lemma DueMore(missing: seq<UnitHash>, sentAt: map<UnitHash, nat>, clock: UnitHash -> nat, h: UnitHash)
    ensures Due(missing + [h], sentAt, clock) ==
      Due(missing, sentAt, clock) + if Recent(sentAt, h, clock(h)) then [] else [h]
  {
    assert (missing + [h])[..|missing|] == missing;
  }

  /** A unit not asked for in this walk: the throttle reads as it did before. */
  lemma ThrottleStands(before: map<UnitHash, nat>, asked: seq<UnitHash>, clock: UnitHash -> nat,
                       after: map<UnitHash, nat>, h: UnitHash)
    requires Noted(before, asked, clock, after) && h !in asked
    ensures Recent(after, h, clock(h)) <==> Recent(before, h, clock(h))
  {
    assert h in after.Keys <==> h in before.Keys + Elements(asked);
  }

  /** The walk has asked for what is due of the units it found missing. */
  ghost predicate Throttled(before: map<UnitHash, nat>, missing: seq<UnitHash>, clock: UnitHash -> nat,
                            asked: seq<UnitHash>, after: map<UnitHash, nat>)
  {
    asked == Due(missing, before, clock) && Noted(before, asked, clock, after)
  }

  lemma NotedMore(before: map<UnitHash, nat>, asked: seq<UnitHash>, clock: UnitHash -> nat,
                  after: map<UnitHash, nat>, h: UnitHash)
    requires Noted(before, asked, clock, after) && h !in asked
    ensures Noted(before, asked + [h], clock, after[h := clock(h)])
  {
    assert Elements(asked + [h]) == Elements(asked) + {h};
    assert after[h := clock(h)].Keys == after.Keys + {h};
  }

  /** Where the walk ends, it has asked for what is missing and not recent. */
  lemma WalkAsked(table: Units, extended: Units, top: Unit, visited: set<UnitHash>, missing: seq<UnitHash>,
                  before: map<UnitHash, nat>, clock: UnitHash -> nat)
    requires Walked(table, extended, top, visited, {}, missing)
    ensures var asked := Due(missing, before, clock);
      && Distinct(asked)
      && forall h :: h in asked <==> Missing(table, extended, top, h) && !Recent(before, h, clock(h))
  {
    WalkEnds(table, extended, top, visited, missing);
    DueAre(missing, before, clock);
  }

  lemma Popped(stack: seq<UnitHash>)
    requires stack != []
    ensures Elements(stack) == Elements(stack[..|stack| - 1]) + {stack[|stack| - 1]}
  {
    assert stack == stack[..|stack| - 1] + [stack[|stack| - 1]];
  }

  lemma WalkOfParents(u: Unit)
    ensures Elements(ParentWalk(u)) == ParentSet(u)
  {
  }

  lemma Stacked(stack: seq<UnitHash>, u: Unit)
    ensures Elements(stack + ParentWalk(u)) == Elements(stack) + ParentSet(u)
  {
    WalkOfParents(u);
  }

  // ----- when the walk asks for nothing -----

  /** Every parent entry of `u` that is held is by its key's creator, one round down. */
  ghost predicate WellPlaced(table: Units, u: Unit) {
    forall c :: c in u.parents && u.parents[c] in table ==>
      table[u.parents[c]].creator == c && table[u.parents[c]].round + 1 == u.round
  }

  /** If nothing is missing and no opened ancestor is misplaced, all of `top`'s
      ancestry is extendable. */
  lemma {:induction false} QuietIsExtendable(table: Units, top: Unit, h: UnitHash)
    requires forall g :: !Missing(table, Extended(table), top, g)
    requires forall g ::
      Reached(table, Extended(table), top, g) && Opens(table, Extended(table), g) ==> WellPlaced(table, table[g])
    requires Reached(table, Extended(table), top, h)
    ensures h in Extended(table)
    decreases if h in table then table[h].round else 0
  {
    var e := Extended(table);
    assert !Missing(table, e, top, h);
    if h !in e {
      assert Opens(table, e, h) && WellPlaced(table, table[h]);
      ReachesOn(table, e, top, h);
      forall c | c in table[h].parents ensures Linked(table, h, c) && Extendable(table, table[h].parents[c]) {
        var p := table[h].parents[c];
        assert p in ParentSet(table[h]);
        assert Reached(table, e, top, p) && !Missing(table, e, top, p);
        QuietIsExtendable(table, top, p);
      }
    }
  }

  /** A quiet walk means the unit extends the moment it is stored: only a
      misplaced parent entry among held ancestors can still keep it back. */
  lemma QuietWalkExtends(table: Units, h: UnitHash, top: Unit)
    requires h !in table && WellPlaced(table, top)
    requires forall g :: !Missing(table, Extended(table), top, g)
    requires forall g ::
      Reached(table, Extended(table), top, g) && Opens(table, Extended(table), g) ==> WellPlaced(table, table[g])
    ensures h in Extended(table[h := top])
  {
    var e := Extended(table);
    ReachesParents(table, e, top);
    forall c | c in top.parents
      ensures var p := top.parents[c]; p in e && e[p].creator == c && e[p].round + 1 == top.round
    {
      assert top.parents[c] in ParentSet(top);
      QuietIsExtendable(table, top, top.parents[c]);
    }
    assert Placed(table[h := top], e, h);
    PlacedExtends(table, h, top);
  }
}

/** Head election: one head per round, the same at every node and forever, and
    never a round all of whose candidates are excluded. */
module Election {
  import opened Ordered
  import opened Dag
  import opened Voting

  /** `h` is the head a node holding `us` elects for `round`: a unit three
      rounds up is held, `h` is decided 1, every lower-hash candidate 0. */
  ghost predicate Elects(rules: Rules, us: Units, round: Round, h: UnitHash)
    requires Rooted(us)
  {
    && (exists top :: top in us && us[top].round == round + 3)
    && h in us && us[h].round == round && Decided(rules, us, h, true)
    && forall c :: c in us && us[c].round == round && c < h ==> Decided(rules, us, c, false)
  }

  ghost function Head(rules: Rules, us: Units, round: Round): (r: Option<UnitHash>)
    requires Rooted(us)
    ensures r.Some? ==> Elects(rules, us, round, r.value)
    ensures r.None? ==> forall h :: !Elects(rules, us, round, h)
  {
    if h :| Elects(rules, us, round, h) then Some(h) else None
  }

  /** A candidate below one node's head is not the head of another node. */
  lemma LowerHeadImpossible(w: World, one: Units, two: Units, round: Round, g: UnitHash, h: UnitHash)
    requires w.Sound() && w.Holds(one) && w.Holds(two) && g < h
    requires Elects(w.rules, one, round, g)
    ensures !Elects(w.rules, two, round, h)
  {
    if g in two {
      ViewsDecideAlike(w, one, two, g);
    } else if exists top :: top in two && two[top].round == round + 3 {
      var top :| top in two && two[top].round == round + 3;
      DecidedGrows(w.rules, one, w.units, g, true);
      Coverage(w, two, top, g);
    }
  }

  /** Two nodes that both elect a head for a round elect the same one, however
      different the parts of the world they hold. */
  lemma HeadsAgree(w: World, one: Units, two: Units, round: Round, g: UnitHash, h: UnitHash)
    requires w.Sound() && w.Holds(one) && w.Holds(two)
    requires Elects(w.rules, one, round, g) && Elects(w.rules, two, round, h)
    ensures g == h
  {
    if g < h {
      LowerHeadImpossible(w, one, two, round, g, h);
    } else if h < g {
      LowerHeadImpossible(w, two, one, round, h, g);
    }
  }

  /** An elected head stays elected: units arriving later, lower-hash
      candidates of its round among them, are already decided against. */
  lemma HeadStays(w: World, view: Units, grown: Units, round: Round, h: UnitHash)
    requires w.Sound() && w.Holds(view) && w.Holds(grown) && Submap(view, grown)
    requires Elects(w.rules, view, round, h)
    ensures Elects(w.rules, grown, round, h)
  {
    var top :| top in view && view[top].round == round + 3;
    DecidedGrows(w.rules, view, grown, h, true);
    forall c | c in grown && grown[c].round == round && c < h
      ensures Decided(w.rules, grown, c, false)
    {
      if c in view {
        DecidedGrows(w.rules, view, grown, c, false);
      } else {
        Coverage(w, view, top, c);
        DecidesViewFree(w.rules, grown, w.units, c, top, false);
      }
    }
  }

  /** The head in full: the one candidate that is decided 1 while all of lower
      hash are decided 0, once a unit three rounds up is held. */
  lemma HeadIff(w: World, view: Units, round: Round, h: UnitHash)
    requires w.Sound() && w.Holds(view)
    ensures Head(w.rules, view, round) == Some(h) <==>
      && (exists top :: top in view && view[top].round == round + 3)
      && h in view && view[h].round == round
      && (exists u :: u in view && Decides(w.rules, view, h, u, true))
      && (forall c :: c in view && view[c].round == round && c < h ==>
            exists u :: u in view && Decides(w.rules, view, c, u, false))
  {
    if Elects(w.rules, view, round, h) {
      HeadsAgree(w, view, view, round, h, Head(w.rules, view, round).value);
    }
  }

  // ----- some candidate is never excluded -----

  lemma {:induction false} RowSize(pairs: set<(nat, nat)>, i: nat, row: set<nat>)
    requires forall p :: p in pairs ==> p.0 == i
    requires forall j :: j in row <==> (i, j) in pairs
    ensures |pairs| == |row|
    decreases row
  {
    assert forall p :: p in pairs ==> p == (i, p.1);
    if row == {} {
      assert pairs == {};
    } else {
      var j :| j in row;
      RowSize(pairs - {(i, j)}, i, row - {j});
    }
  }

  lemma {:induction false} ColumnSize(pairs: set<(nat, nat)>, j: nat, column: set<nat>)
    requires forall p :: p in pairs ==> p.1 == j
    requires forall i :: i in column <==> (i, j) in pairs
    ensures |pairs| == |column|
    decreases column
  {
    assert forall p :: p in pairs ==> p == (p.0, j);
    if column == {} {
      assert pairs == {};
    } else {
      var i :| i in column;
      ColumnSize(pairs - {(i, j)}, j, column - {i});
    }
  }

  function Row(pairs: set<(nat, nat)>, i: nat): set<nat> {
    set p | p in pairs && p.0 == i :: p.1
  }

  function Column(pairs: set<(nat, nat)>, j: nat): set<nat> {
    set p | p in pairs && p.1 == j :: p.0
  }

  lemma InRow(pairs: set<(nat, nat)>, i: nat, j: nat)
    ensures j in Row(pairs, i) <==> (i, j) in pairs
    ensures i in Column(pairs, j) <==> (i, j) in pairs
  {
    if (i, j) in pairs {
      var p := (i, j);
      assert p in pairs && p.0 == i && p.1 == j;
    }
  }

  /** Taking one row out leaves the others as they are. */
  lemma OtherRows(pairs: set<(nat, nat)>, i: nat) returns (rest: set<(nat, nat)>)
    ensures rest <= pairs && (forall p :: p in rest ==> p.0 != i)
    ensures |pairs| == |rest| + |Row(pairs, i)|
    ensures forall k :: k != i ==> Row(rest, k) == Row(pairs, k)
  {
    var mine := set p | p in pairs && p.0 == i;
    forall j ensures j in Row(pairs, i) <==> (i, j) in mine {
      InRow(pairs, i, j);
    }
    RowSize(mine, i, Row(pairs, i));
    rest := pairs - mine;
    forall k | k != i ensures Row(rest, k) == Row(pairs, k) {
      forall j ensures j in Row(rest, k) <==> j in Row(pairs, k) {
        InRow(rest, k, j);
        InRow(pairs, k, j);
      }
    }
  }

  lemma {:induction false} RowsBelow(pairs: set<(nat, nat)>, rows: set<nat>, low: nat)
    requires forall p :: p in pairs ==> p.0 in rows
    requires forall i :: i in rows ==> |Row(pairs, i)| >= low
    ensures |pairs| >= |rows| * low
    decreases rows
  {
    if rows != {} {
      var i :| i in rows;
      var rest := OtherRows(pairs, i);
      RowsBelow(rest, rows - {i}, low);
      assert |rows| == |rows - {i}| + 1;
      assert |rows| * low == |rows - {i}| * low + low;
    }
  }

  lemma OtherColumns(pairs: set<(nat, nat)>, j: nat) returns (rest: set<(nat, nat)>)
    ensures rest <= pairs && (forall p :: p in rest ==> p.1 != j)
    ensures |pairs| == |rest| + |Column(pairs, j)|
    ensures forall k :: k != j ==> Column(rest, k) == Column(pairs, k)
  {
    var mine := set p | p in pairs && p.1 == j;
    forall i ensures i in Column(pairs, j) <==> (i, j) in mine {
      InRow(pairs, i, j);
    }
    ColumnSize(mine, j, Column(pairs, j));
    rest := pairs - mine;
    forall k | k != j ensures Column(rest, k) == Column(pairs, k) {
      forall i ensures i in Column(rest, k) <==> i in Column(pairs, k) {
        InRow(rest, i, k);
        InRow(pairs, i, k);
      }
    }
  }

  lemma {:induction false} ColumnsAbove(pairs: set<(nat, nat)>, columns: set<nat>, high: nat)
    requires forall p :: p in pairs ==> p.1 in columns
    requires forall j :: j in columns ==> |Column(pairs, j)| <= high
    ensures |pairs| <= |columns| * high
    decreases columns
  {
    if columns == {} {
      assert pairs == {};
    } else {
      var j :| j in columns;
      var rest := OtherColumns(pairs, j);
      ColumnsAbove(rest, columns - {j}, high);
      assert |columns| == |columns - {j}| + 1;
      assert |columns| * high == |columns - {j}| * high + high;
    }
  }

  /** Double count: if every row of a square relation has more than `f`
      entries, some column does. */
  lemma HeavyColumn(pairs: set<(nat, nat)>, nodes: set<nat>, f: nat) returns (j: nat)
    requires nodes != {}
    requires forall p :: p in pairs ==> p.0 in nodes && p.1 in nodes
    requires forall i :: i in nodes ==> |Row(pairs, i)| >= f + 1
    ensures j in nodes && |Column(pairs, j)| >= f + 1
  {
    assert |nodes| * (f + 1) == |nodes| * f + |nodes|;
    RowsBelow(pairs, nodes, f + 1);
    if forall k :: k in nodes ==> |Column(pairs, k)| <= f {
      ColumnsAbove(pairs, nodes, f);
      assert false;
    }
    j :| j in nodes && |Column(pairs, j)| >= f + 1;
  }

  /** Every honest node has a unit at `round` in `us`. */
  ghost predicate HonestReach(w: World, us: Units, round: Round) {
    forall i: NodeId :: i < w.rules.Total() && i !in w.byzantine ==> UnitAt(us, i, round)
  }

  ghost predicate UnitAt(us: Units, i: NodeId, round: Round) {
    exists u :: u in us && us[u].creator == i && us[u].round == round
  }

  ghost function TheUnitAt(us: Units, i: NodeId, round: Round): (u: UnitHash)
    requires UnitAt(us, i, round)
    ensures u in us && us[u].creator == i && us[u].round == round
  {
    var u :| u in us && us[u].creator == i && us[u].round == round;
    u
  }

  /** The honest creators referenced by honest units one round above `round`. */
  ghost function HonestLinks(w: World, us: Units, round: Round): (pairs: set<(nat, nat)>)
    requires HonestReach(w, us, round + 1)
    ensures forall p :: p in pairs ==> p.0 in Honest(w) && p.1 in Honest(w)
    ensures forall i, j :: i in Honest(w) && j in Honest(w) ==>
      ((i, j) in pairs <==> j in us[TheUnitAt(us, i, round + 1)].parents)
  {
    set i, j | i in Honest(w) && j in Honest(w) && j in us[TheUnitAt(us, i, round + 1)].parents :: (i, j)
  }

  ghost function Honest(w: World): (s: set<NodeId>)
    ensures forall i: NodeId :: i in s <==> i < w.rules.Total() && i !in w.byzantine
  {
    Below(w.rules.Total()) - w.byzantine
  }

  lemma HonestMany(w: World)
    requires w.Sound()
    ensures |Honest(w)| >= 2 * w.rules.f + 1
  {
    var all := Below(w.rules.Total());
    SubsetSize(all * w.byzantine, w.byzantine);
    assert all == Honest(w) + all * w.byzantine;
  }

  /** Each honest unit references more than `f` honest creators. */
  lemma HonestRow(w: World, us: Units, round: Round, i: NodeId)
    requires w.Sound() && w.Holds(us) && HonestReach(w, us, round + 1) && i in Honest(w)
    ensures |Row(HonestLinks(w, us, round), i)| >= w.rules.f + 1
  {
    var pairs := HonestLinks(w, us, round);
    var parents := us[TheUnitAt(us, i, round + 1)].parents.Keys;
    assert w.rules.Admits(w.units[TheUnitAt(us, i, round + 1)]);
    var row := parents - w.byzantine;
    forall j ensures j in row <==> j in Row(pairs, i) {
      InRow(pairs, i, j);
    }
    assert row == Row(pairs, i);
    SubsetSize(parents * w.byzantine, w.byzantine);
    assert parents == row + parents * w.byzantine;
  }

  /** Two quorum-sized and `f+1`-sized sets of a `3f+1` mint share a node. */
  lemma QuorumHits(f: nat, quorum: set<nat>, some: set<nat>) returns (i: nat)
    requires quorum <= Below(3 * f + 1) && some <= Below(3 * f + 1)
    requires |quorum| >= 2 * f + 1 && |some| >= f + 1
    ensures i in quorum && i in some
  {
    SubsetSize(quorum + some, Below(3 * f + 1));
    assert quorum * some != {};
    i :| i in quorum * some;
  }

  /** The unit every honest link to creator `j` names. */
  lemma LinksNameOneUnit(w: World, us: Units, round: Round, i: NodeId, k: NodeId, j: NodeId)
    requires w.Sound() && w.Holds(us) && HonestReach(w, us, round + 1)
    requires (i, j) in HonestLinks(w, us, round) && (k, j) in HonestLinks(w, us, round)
    ensures us[TheUnitAt(us, i, round + 1)].parents[j] == us[TheUnitAt(us, k, round + 1)].parents[j]
    ensures us[TheUnitAt(us, i, round + 1)].parents[j] in us
    ensures us[us[TheUnitAt(us, i, round + 1)].parents[j]].round == round
    ensures us[us[TheUnitAt(us, i, round + 1)].parents[j]].creator == j
  {
    var a, b := TheUnitAt(us, i, round + 1), TheUnitAt(us, k, round + 1);
    assert Linked(us, a, j) && Linked(us, b, j);
    assert SamePosition(w.units[us[a].parents[j]], w.units[us[b].parents[j]], w.byzantine);
  }

  /** A candidate named by `f+1` honest next-round units is voted 1 by every
      unit two rounds up. */
  lemma WellReferencedIsVoted(w: World, us: Units, round: Round, j: NodeId, cand: UnitHash, x: UnitHash)
    requires w.Sound() && w.Holds(us) && HonestReach(w, us, round + 1)
    requires j in Honest(w) && |Column(HonestLinks(w, us, round), j)| >= w.rules.f + 1
    requires cand in us && us[cand].round == round && us[cand].creator == j
    requires forall i :: (i, j) in HonestLinks(w, us, round) ==> us[TheUnitAt(us, i, round + 1)].parents[j] == cand
    requires x in w.units && w.units[x].round == round + 2
    ensures Vote(w.rules, w.units, cand, x)
  {
    var pairs := HonestLinks(w, us, round);
    var column := Column(pairs, j);
    forall i | i in column ensures i in Below(w.rules.Total()) {
      InRow(pairs, i, j);
    }
    assert w.rules.Admits(w.units[x]);
    var i := QuorumHits(w.rules.f, w.units[x].parents.Keys, column);
    InRow(pairs, i, j);
    assert Linked(w.units, x, i);
    var p := w.units[x].parents[i];
    var mine := TheUnitAt(us, i, round + 1);
    assert SamePosition(w.units[p], w.units[mine], w.byzantine);
    assert p == mine;
    assert Vote(w.rules, w.units, cand, p);
  }

  /** The candidate the double count finds. */
  lemma WellReferenced(w: World, us: Units, round: Round) returns (j: NodeId, cand: UnitHash)
    requires w.Sound() && w.Holds(us) && HonestReach(w, us, round + 1)
    ensures j in Honest(w) && |Column(HonestLinks(w, us, round), j)| >= w.rules.f + 1
    ensures cand in us && us[cand].round == round && us[cand].creator == j
    ensures forall i :: (i, j) in HonestLinks(w, us, round) ==> us[TheUnitAt(us, i, round + 1)].parents[j] == cand
  {
    HonestMany(w);
    var pairs := HonestLinks(w, us, round);
    forall i | i in Honest(w) ensures |Row(pairs, i)| >= w.rules.f + 1 {
      HonestRow(w, us, round, i);
    }
    j := HeavyColumn(pairs, Honest(w), w.rules.f);
    assert Column(pairs, j) != {};
    var k :| k in Column(pairs, j);
    InRow(pairs, k, j);
    LinksNameOneUnit(w, us, round, k, k, j);
    cand := us[TheUnitAt(us, k, round + 1)].parents[j];
    forall i | (i, j) in pairs ensures us[TheUnitAt(us, i, round + 1)].parents[j] == cand {
      LinksNameOneUnit(w, us, round, i, k, j);
    }
  }

  /** A candidate a whole round votes 1 on two rounds up is never decided 0. */
  lemma VotedIsNeverExcluded(w: World, cand: UnitHash)
    requires w.Sound() && cand in w.units && RoundVotes(w, cand, w.units[cand].round + 2, true)
    ensures !Decided(w.rules, w.units, cand, false)
  {
    if Decided(w.rules, w.units, cand, false) {
      var u :| u in w.units && Decides(w.rules, w.units, cand, u, false);
      var c := SomeParent(w, u);
      CertificateIsUnanimous(w, cand, u, false);
      VotesPropagate(w, cand, w.units[cand].round + 2, w.units[u].round - 1, true);
      assert false;
    }
  }

  /** If every honest node has a unit at `round + 1`, some candidate of `round`
      is voted 1 by all units from two rounds up and is never decided 0. */
  lemma SomeCandidateSurvives(w: World, us: Units, round: Round) returns (cand: UnitHash)
    requires w.Sound() && w.Holds(us) && HonestReach(w, us, round + 1)
    ensures cand in us && us[cand].round == round
    ensures forall above :: round + 2 <= above ==> RoundVotes(w, cand, above, true)
    ensures !Decided(w.rules, w.units, cand, false)
  {
    var j;
    j, cand := WellReferenced(w, us, round);
    forall x | x in w.units && w.units[x].round == round + 2 ensures Vote(w.rules, w.units, cand, x) {
      WellReferencedIsVoted(w, us, round, j, cand, x);
    }
    forall above | round + 2 <= above ensures RoundVotes(w, cand, above, true) {
      VotesPropagate(w, cand, round + 2, above, true);
    }
    VotedIsNeverExcluded(w, cand);
  }

  /** The walk over a round's candidates never finds all of them decided 0. */
  lemma WalkNeverExhausted(w: World, us: Units, round: Round)
    requires w.Sound() && w.Holds(us) && HonestReach(w, us, round + 1)
    ensures exists c :: c in us && us[c].round == round && !Decided(w.rules, us, c, false)
  {
    var cand := SomeCandidateSurvives(w, us, round);
    if Decided(w.rules, us, cand, false) {
      DecidedGrows(w.rules, us, w.units, cand, false);
    }
  }
}

/** The parents of a new unit and when a round is ready for one. */
module Creating {
  import opened Ordered
  import opened Dag
  import opened Election
  import opened Ordering
  import opened Extension
  import opened Protocol
  import opened Storing
  import opened Deciding

  /** `branches` has the lowest-hash unit of every creator at `round`. */
  ghost predicate LowestBranches(us: Units, round: Round, branches: map<NodeId, UnitHash>) {
    && (forall c :: c in branches ==>
          branches[c] in us && us[branches[c]].creator == c && us[branches[c]].round == round)
    && (forall h :: h in us && us[h].round == round ==> us[h].creator in branches && branches[us[h].creator] <= h)
  }

  /** As far as the first `k` units of the row. */
  ghost predicate BranchesOf(us: Units, round: Round, row: seq<UnitHash>, k: nat, branches: map<NodeId, UnitHash>) {
    && k <= |row|
    && (forall c :: c in branches ==>
          && branches[c] in us && us[branches[c]].creator == c && us[branches[c]].round == round
          && (k < |row| ==> branches[c] < row[k]))
    && (forall j :: 0 <= j < k ==> Branched(us, row[j], branches))
  }

  ghost predicate Branched(us: Units, h: UnitHash, branches: map<NodeId, UnitHash>) {
    h in us && us[h].creator in branches && branches[us[h].creator] <= h
  }

  lemma BranchStep(us: Units, round: Round, row: seq<UnitHash>, k: nat, branches: map<NodeId, UnitHash>)
    requires IsRow(us, round, row) && k < |row| && BranchesOf(us, round, row, k, branches)
    ensures var c := us[row[k]].creator;
      BranchesOf(us, round, row, k + 1, if c in branches then branches else branches[c := row[k]])
  {
    var c := us[row[k]].creator;
    var more := if c in branches then branches else branches[c := row[k]];
    forall j | 0 <= j < k + 1 ensures Branched(us, row[j], more) {
      if j < k {
        assert Branched(us, row[j], branches);
      }
    }
  }

  lemma BranchesDone(us: Units, round: Round, row: seq<UnitHash>, branches: map<NodeId, UnitHash>)
    requires IsRow(us, round, row) && BranchesOf(us, round, row, |row|, branches)
    ensures LowestBranches(us, round, branches)
  {
    forall h | h in us && us[h].round == round
      ensures us[h].creator in branches && branches[us[h].creator] <= h
    {
      var j := PlaceInRow(us, round, row, h);
      assert Branched(us, row[j], branches);
    }
  }

  /** What `parents_for` picks out of a row: ourselves and the lowest other ids,
      a threshold in all, or nothing if the row lacks us or a threshold. */
  ghost predicate ParentChoice(id: NodeId, t: nat, branches: map<NodeId, UnitHash>, r: Option<map<NodeId, UnitHash>>) {
    match r
    case None => id !in branches || |branches| < t
    case Some(p) =>
      && |p| == t && id in p
      && (forall c :: c in p ==> c in branches && p[c] == branches[c])
      && (forall c, d :: c in p && d in branches && d !in p ==> c == id || c < d)
  }

  ghost predicate ParentsPicked(id: NodeId, t: nat, us: Units, round: Round, branches: map<NodeId, UnitHash>,
                                r: Option<map<NodeId, UnitHash>>)
  {
    LowestBranches(us, round, branches) && ParentChoice(id, t, branches, r)
  }

  /** The unit's parents are what the rule picks for its round. */
  ghost predicate WithChosenParents(id: NodeId, t: nat, us: Units, u: Unit) {
    u.round == 0 || exists branches :: PicksFor(id, t, us, branches, u)
  }

  ghost predicate PicksFor(id: NodeId, t: nat, us: Units, branches: map<NodeId, UnitHash>, u: Unit)
    requires u.round > 0
  {
    ParentsPicked(id, t, us, u.round - 1, branches, Some(u.parents))
  }

  /** The rule in full: ourselves and the lowest other creators of the round
      below, a threshold in all, each by its lowest-hash extended unit. */
  lemma ChosenParentsAre(id: NodeId, t: nat, us: Units, u: Unit)
    requires WithChosenParents(id, t, us, u) && u.round > 0
    ensures |u.parents| == t && id in u.parents
    ensures forall c :: c in u.parents ==> u.parents[c] in us && us[u.parents[c]].creator == c
    ensures forall c :: c in u.parents ==> us[u.parents[c]].round == u.round - 1
    ensures forall c, h :: c in u.parents && h in us && us[h].creator == c && us[h].round == u.round - 1 ==>
      u.parents[c] <= h
    ensures forall c, h :: c in u.parents && h in us && us[h].round == u.round - 1 && us[h].creator !in u.parents ==>
      c == id || c < us[h].creator
  {
    var branches :| PicksFor(id, t, us, branches, u);
  }

  lemma {:induction false} DistinctSize(s: seq<nat>)
    requires Distinct(s)
    ensures |Elements(s)| == |s|
  {
    if s != [] {
      var n := |s| - 1;
      DistinctSize(s[..n]);
      VisitOne(s, n);
      assert s[..n + 1] == s;
      if s[n] in Elements(s[..n]) {
        var j := IndexOf(s[..n], s[n]);
        assert false;
      }
    }
  }

  /** Ourselves first, then the other creators by ascending id. */
  ghost predicate IsRanking(id: NodeId, row: map<NodeId, UnitHash>, ids: seq<NodeId>) {
    && |ids| > 0 && ids[0] == id && Distinct(ids) && |ids| == |row|
    && (forall c :: c in ids <==> c in row)
    && (forall i, j :: 0 < i < j < |ids| ==> ids[i] < ids[j])
  }

  lemma RankingOf(id: NodeId, row: map<NodeId, UnitHash>)
    requires id in row
    ensures IsRanking(id, row, [id] + Ascending(row.Keys - {id}))
  {
    var rest := Ascending(row.Keys - {id});
    AscendingRises(row.Keys - {id});
    LeadDistinct(id, rest);
    assert row.Keys == (row.Keys - {id}) + {id};
    assert |row| == |row.Keys|;
  }

  lemma LeadDistinct(x: nat, s: seq<nat>)
    requires x !in s && forall i, j :: 0 <= i < j < |s| ==> s[i] < s[j]
    ensures Distinct([x] + s)
    ensures forall i, j :: 0 < i < j < |[x] + s| ==> ([x] + s)[i] < ([x] + s)[j]
    ensures forall c :: c in [x] + s <==> c == x || c in s
  {
    StillDistinct([x], s);
  }

  /** Taking the first of a ranking is what the parent rule asks for. */
  lemma PickedIsChoice(id: NodeId, t: nat, row: map<NodeId, UnitHash>, ids: seq<NodeId>, picked: seq<NodeId>)
    requires id in row && t > 0 && IsRanking(id, row, ids)
    requires picked == if |ids| < t then ids else ids[..t]
    ensures forall c :: c in picked ==> c in row
    ensures var chosen := map c | c in picked :: row[c];
      ParentChoice(id, t, row, if |chosen| == t then Some(chosen) else None)
  {
    assert forall c :: c in picked ==> c in ids;
    var chosen := map c | c in picked :: row[c];
    assert chosen.Keys == Elements(picked);
    DistinctSize(picked);
    assert |chosen| == |chosen.Keys| == |picked|;
    if |chosen| == t {
      assert picked[0] == id;
      forall c, d | c in chosen && d in row && d !in chosen ensures c == id || c < d {
        PickedLower(id, row, ids, t, c, d);
      }
    }
  }

  lemma PickedLower(id: NodeId, row: map<NodeId, UnitHash>, ids: seq<NodeId>, t: nat, c: NodeId, d: NodeId)
    requires IsRanking(id, row, ids) && t <= |ids| && c in ids[..t] && d in row && d !in ids[..t]
    ensures c == id || c < d
  {
    var i := IndexOf(ids[..t], c);
    var j := IndexOf(ids, d);
    InPrefix(ids, t, j);
  }

  lemma InPrefix(s: seq<nat>, i: nat, j: nat)
    requires i <= |s| && j < |s|
    ensures j < i ==> s[j] in s[..i]
  {
    if j < i {
      assert s[..i][j] == s[j];
    }
  }

  /** Whether the round below `round` offers a threshold of creators, us among them. */
  ghost predicate ReadyFor(id: NodeId, t: nat, us: Units, round: Round) {
    round == 0 || (UnitAt(us, id, round - 1) && |CreatorsAt(us, round - 1)| >= t)
  }

  function CreatorsAt(us: Units, round: Round): set<NodeId> {
    set h | h in us && us[h].round == round :: us[h].creator
  }

  lemma ChoiceReady(id: NodeId, t: nat, us: Units, round: Round, branches: map<NodeId, UnitHash>,
                    parents: Option<map<NodeId, UnitHash>>)
    requires round == 0 ==> parents.Some?
    requires round > 0 ==> ParentsPicked(id, t, us, round - 1, branches, parents)
    ensures parents.Some? <==> ReadyFor(id, t, us, round)
  {
    if round > 0 {
      forall c | c in branches ensures c in CreatorsAt(us, round - 1) {
        assert branches[c] in us;
      }
      assert branches.Keys == CreatorsAt(us, round - 1);
      assert |branches| == |branches.Keys|;
      if id in branches {
        assert branches[id] in us;
      }
      if parents.Some? {
        assert parents.value.Keys <= branches.Keys;
        SubsetSize(parents.value.Keys, branches.Keys);
        assert |parents.value| == |parents.value.Keys|;
      }
    }
  }

  /** What the parent rule picks is what an honest node may sign. */
  lemma ChosenMayCreate(rules: Rules, id: NodeId, n: Node, top: Option<(Round, UnitHash)>,
                        branches: map<NodeId, UnitHash>, u: Unit)
    requires IsOwnTop(id, n.table, top) && id < rules.Total() && Admitted(rules, n.table)
    requires u.creator == id && u.round == if top.None? then 0 else top.value.0 + 1
    requires u.round == 0 ==> u.parents == map[]
    requires u.round > 0 ==>
      ParentsPicked(id, rules.Threshold(), Extended(n.table), u.round - 1, branches, Some(u.parents))
    ensures MayCreate(rules, n, id, u)
  {
    forall c | c in u.parents
      ensures c < rules.Total()
      ensures u.parents[c] in Extended(n.table)
      ensures n.table[u.parents[c]].creator == c && n.table[u.parents[c]].round + 1 == u.round
    {
      assert u.parents[c] == branches[c];
      assert rules.Admits(n.table[u.parents[c]]);
    }
    assert rules.Admits(u);
  }

  // ----- a run of new units -----

  /** The stored units of others the coming rounds can still build on. */
  ghost function Ahead(id: NodeId, table: Units, round: Round): set<UnitHash> {
    set h | h in table && table[h].creator != id && table[h].round + 1 >= round
  }

  /** A quorum at a round holds a unit that is not ours. */
  lemma OtherAt(id: NodeId, t: nat, us: Units, round: Round) returns (h: UnitHash)
    requires t >= 2 && |CreatorsAt(us, round)| >= t
    ensures h in us && us[h].round == round && us[h].creator != id
  {
    var creators := CreatorsAt(us, round);
    if creators <= {id} {
      SubsetSize(creators, {id});
      assert false;
    }
    var c :| c in creators && c != id;
    h :| h in us && us[h].round == round && us[h].creator == c;
  }

  /** Every unit we add uses up a round others had reached: the run of new
      units cannot outgrow what others have published. */
  lemma AheadShrinks(id: NodeId, t: nat, table: Units, round: Round, h: UnitHash, u: Unit)
    requires t >= 2 && ReadyFor(id, t, Extended(table), round) && h !in table && u.creator == id && round > 0
    ensures Ahead(id, table[h := u], round + 1) < Ahead(id, table, round)
  {
    var other := OtherAt(id, t, Extended(table), round - 1);
    assert other in Ahead(id, table, round) && other !in Ahead(id, table[h := u], round + 1);
  }

  /** The node and the session after publishing `made`, one after the other. */
  ghost function CreateAll(rules: Rules, hashOf: Unit -> UnitHash, n: Node, made: seq<Unit>): Node {
    if made == [] then n else
      var last := made[|made| - 1];
      Create(rules, CreateAll(rules, hashOf, n, made[..|made| - 1]), hashOf(last), last)
  }

  function PublishAll(s: Session, made: seq<Unit>): Session {
    if made == [] then s else PublishAll(s, made[..|made| - 1]).Publish(made[|made| - 1])
  }

  /** One unit a round from `start` up, each with the payload drawn for it. */
  ghost predicate MadeInOrder(hashing: Hashing, made: seq<Unit>, start: Round, draws: nat -> seq<Item>) {
    forall k :: 0 <= k < |made| ==> made[k].round == start + k && made[k].data == hashing.Commitment(draws(k))
  }

  lemma StillInOrder(hashing: Hashing, made: seq<Unit>, start: Round, draws: nat -> seq<Item>, u: Unit)
    requires MadeInOrder(hashing, made, start, draws)
    requires u.round == start + |made| && u.data == hashing.Commitment(draws(|made|))
    ensures MadeInOrder(hashing, made + [u], start, draws)
  {
  }

  lemma OneMore(rules: Rules, hashOf: Unit -> UnitHash, n: Node, s: Session, made: seq<Unit>, u: Unit)
    ensures CreateAll(rules, hashOf, n, made + [u]) == Create(rules, CreateAll(rules, hashOf, n, made), hashOf(u), u)
    ensures PublishAll(s, made + [u]) == PublishAll(s, made).Publish(u)
  {
    assert (made + [u])[..|made|] == made;
  }
}

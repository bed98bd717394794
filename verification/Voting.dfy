/** The virtual vote and the include/exclude decision, with the fork-tolerance
    argument: what one unit's parents certify, no unit anywhere contradicts. */
module Voting {
  import opened Ordered
  import opened Dag

  /** The default bit of a candidate as seen from `round`: 1 two rounds up,
      0 three rounds up, a seeded bit above. */
  function CommonVote(rules: Rules, cand: UnitHash, candRound: Round, round: Round): bool
    requires round >= candRound + 2
  {
    if round - candRound == 2 then true
    else if round - candRound == 3 then false
    else rules.coin(round, cand)
  }

  /** The vote of `voter` on `cand`: parent membership one round up, the
      parents' vote above if they are unanimous, else the common vote. */
  ghost function Vote(rules: Rules, us: Units, cand: UnitHash, voter: UnitHash): bool
    requires Rooted(us) && cand in us && voter in us && us[cand].round < us[voter].round
    decreases us[voter].round
  {
    var k, u := us[cand], us[voter];
    if u.round == k.round + 1 then
      k.creator in u.parents && u.parents[k.creator] == cand
    else if forall c :: c in u.parents ==> Linked(us, voter, c) && Vote(rules, us, cand, u.parents[c]) then
      true
    else if forall c :: c in u.parents ==> Linked(us, voter, c) && !Vote(rules, us, cand, u.parents[c]) then
      false
    else
      CommonVote(rules, cand, k.round, u.round)
  }

  /** All parents of `voter` vote `v`. */
  ghost predicate ParentsVote(rules: Rules, us: Units, cand: UnitHash, voter: UnitHash, v: bool)
    requires Rooted(us) && cand in us && voter in us && us[cand].round + 2 <= us[voter].round
  {
    forall c :: c in us[voter].parents ==> Linked(us, voter, c) && Vote(rules, us, cand, us[voter].parents[c]) == v
  }

  /** The aggregation rule: unanimity else default. */
  lemma VoteAggregates(rules: Rules, us: Units, cand: UnitHash, voter: UnitHash)
    requires Rooted(us) && cand in us && voter in us && us[cand].round + 2 <= us[voter].round
    ensures Vote(rules, us, cand, voter) ==
      if ParentsVote(rules, us, cand, voter, true) then true
      else if ParentsVote(rules, us, cand, voter, false) then false
      else CommonVote(rules, cand, us[cand].round, us[voter].round)
  {
  }

  /** The creators under which `u` references a parent voting `v`. */
  ghost function Supporters(rules: Rules, us: Units, cand: UnitHash, u: UnitHash, v: bool): set<NodeId>
    requires Rooted(us) && cand in us && u in us && us[cand].round + 2 <= us[u].round
  {
    set c | c in us[u].parents && Linked(us, u, c) && Vote(rules, us, cand, us[u].parents[c]) == v
  }

  /** `u` decides `cand`: a quorum of its parents votes its round's common vote `v`. */
  ghost predicate Decides(rules: Rules, us: Units, cand: UnitHash, u: UnitHash, v: bool)
    requires Rooted(us) && cand in us && u in us
  {
    && us[cand].round + 2 <= us[u].round
    && v == CommonVote(rules, cand, us[cand].round, us[u].round)
    && |Supporters(rules, us, cand, u, v)| >= rules.Threshold()
  }

  /** Some unit of `us` decides `cand` as `v`. */
  ghost predicate Decided(rules: Rules, us: Units, cand: UnitHash, v: bool)
    requires Rooted(us) && cand in us
  {
    exists u :: u in us && Decides(rules, us, cand, u, v)
  }

  // ----- votes and decisions do not depend on the view -----

  lemma {:induction false} VoteViewFree(rules: Rules, view: Units, large: Units, cand: UnitHash, voter: UnitHash)
    requires Rooted(view) && Rooted(large) && Submap(view, large)
    requires cand in view && voter in view && view[cand].round < view[voter].round
    ensures Vote(rules, view, cand, voter) == Vote(rules, large, cand, voter)
    decreases view[voter].round
  {
    var u := view[voter];
    if u.round != view[cand].round + 1 {
      forall c | c in u.parents
        ensures Linked(view, voter, c) && Linked(large, voter, c)
        ensures Vote(rules, view, cand, u.parents[c]) == Vote(rules, large, cand, u.parents[c])
      {
        assert Linked(view, voter, c);
        VoteViewFree(rules, view, large, cand, u.parents[c]);
      }
    }
  }

  lemma DecidesViewFree(rules: Rules, view: Units, large: Units, cand: UnitHash, u: UnitHash, v: bool)
    requires Rooted(view) && Rooted(large) && Submap(view, large)
    requires cand in view && u in view
    ensures Decides(rules, view, cand, u, v) <==> Decides(rules, large, cand, u, v)
  {
    if view[cand].round + 2 <= view[u].round {
      forall c | c in view[u].parents
        ensures Linked(view, u, c) && Linked(large, u, c)
        ensures Vote(rules, view, cand, view[u].parents[c]) == Vote(rules, large, cand, view[u].parents[c])
      {
        assert Linked(view, u, c);
        VoteViewFree(rules, view, large, cand, view[u].parents[c]);
      }
      assert Supporters(rules, view, cand, u, v) == Supporters(rules, large, cand, u, v);
    }
  }

  lemma DecidedGrows(rules: Rules, view: Units, large: Units, cand: UnitHash, v: bool)
    requires Rooted(view) && Rooted(large) && Submap(view, large) && cand in view
    requires Decided(rules, view, cand, v)
    ensures Decided(rules, large, cand, v)
  {
    var u :| u in view && Decides(rules, view, cand, u, v);
    DecidesViewFree(rules, view, large, cand, u, v);
  }

  // ----- quorum intersection lands on a concrete unit -----

  /** Two units of one round above 0 share a parent unit by an honest creator. */
  lemma CommonParent(w: World, g: UnitHash, h: UnitHash) returns (i: NodeId)
    requires w.Sound() && g in w.units && h in w.units
    requires w.units[g].round == w.units[h].round > 0
    ensures i in w.units[g].parents && i in w.units[h].parents && i !in w.byzantine
    ensures w.units[g].parents[i] == w.units[h].parents[i]
  {
    var a, b := w.units[g].parents.Keys, w.units[h].parents.Keys;
    assert w.rules.Admits(w.units[g]) && w.rules.Admits(w.units[h]);
    i := QuorumsMeet(w.rules.f, a, b, w.byzantine);
    assert Linked(w.units, g, i) && Linked(w.units, h, i);
    assert SamePosition(w.units[w.units[g].parents[i]], w.units[w.units[h].parents[i]], w.byzantine);
  }

  /** All units of `round` vote `v` on `cand`. */
  ghost predicate RoundVotes(w: World, cand: UnitHash, round: Round, v: bool)
    requires Rooted(w.units) && cand in w.units && w.units[cand].round < round
  {
    forall u :: u in w.units && w.units[u].round == round ==> Vote(w.rules, w.units, cand, u) == v
  }

  /** A unit all of whose parents vote `v` votes `v`. */
  lemma UnanimityForces(rules: Rules, us: Units, cand: UnitHash, u: UnitHash, v: bool)
    requires Rooted(us) && cand in us && u in us && us[cand].round + 2 <= us[u].round
    requires us[u].parents != map[]
    requires forall c :: c in us[u].parents ==> Linked(us, u, c) && Vote(rules, us, cand, us[u].parents[c]) == v
    ensures Vote(rules, us, cand, u) == v
  {
    assert us[u].parents.Keys != {};
    var c :| c in us[u].parents;
    assert Linked(us, u, c) && Vote(rules, us, cand, us[u].parents[c]) == v;
  }

  /** Unanimity at one round is inherited by every round above. */
  lemma {:induction false} VotesPropagate(w: World, cand: UnitHash, low: Round, high: Round, v: bool)
    requires w.Sound() && cand in w.units && w.units[cand].round < low <= high
    requires RoundVotes(w, cand, low, v)
    ensures RoundVotes(w, cand, high, v)
    decreases high
  {
    if low < high {
      VotesPropagate(w, cand, low, high - 1, v);
      forall u | u in w.units && w.units[u].round == high
        ensures Vote(w.rules, w.units, cand, u) == v
      {
        assert w.rules.Admits(w.units[u]);
        forall c | c in w.units[u].parents
          ensures Linked(w.units, u, c) && Vote(w.rules, w.units, cand, w.units[u].parents[c]) == v
        {
          assert Linked(w.units, u, c);
        }
        UnanimityForces(w.rules, w.units, cand, u, v);
      }
    }
  }

  /** A deciding unit has all its parents voting the decided value: a unit has
      exactly a quorum of parents, so the certificate is all of them. */
  lemma CertificateIsUnanimous(w: World, cand: UnitHash, u: UnitHash, v: bool)
    requires w.Sound() && cand in w.units && u in w.units && Decides(w.rules, w.units, cand, u, v)
    ensures forall c :: c in w.units[u].parents ==>
      Linked(w.units, u, c) && Vote(w.rules, w.units, cand, w.units[u].parents[c]) == v
  {
    var s := Supporters(w.rules, w.units, cand, u, v);
    assert w.rules.Admits(w.units[u]);
    assert s <= w.units[u].parents.Keys;
    SubsetSize(s, w.units[u].parents.Keys);
    forall c | c in w.units[u].parents ensures c in s {
      assert c in w.units[u].parents.Keys;
    }
  }

  /** One deciding unit forces its whole round to vote the decided value. */
  lemma DecisionForcesRound(w: World, cand: UnitHash, u: UnitHash, v: bool)
    requires w.Sound() && cand in w.units && u in w.units && Decides(w.rules, w.units, cand, u, v)
    ensures RoundVotes(w, cand, w.units[u].round, v)
  {
    CertificateIsUnanimous(w, cand, u, v);
    forall x | x in w.units && w.units[x].round == w.units[u].round
      ensures Vote(w.rules, w.units, cand, x) == v
    {
      var i := CommonParent(w, u, x);
      assert Linked(w.units, x, i);
      assert Vote(w.rules, w.units, cand, w.units[x].parents[i]) == v;
    }
  }

  /** Four or more rounds up, a unit whose parents are mixed votes the bit seeded
      by its own round and the candidate. */
  lemma SeededVote(rules: Rules, us: Units, cand: UnitHash, u: UnitHash)
    requires Rooted(us) && cand in us && u in us && us[u].round >= us[cand].round + 4
    requires !ParentsVote(rules, us, cand, u, true) && !ParentsVote(rules, us, cand, u, false)
    ensures Vote(rules, us, cand, u) == rules.coin(us[u].round, cand)
  {
    VoteAggregates(rules, us, cand, u);
  }

  /** Once a round is unanimous, a unit of the next round decides exactly if its
      own round's bit agrees: 1 two rounds above the candidate, 0 three above,
      and from four up the bit seeded by that round, so each round is a fresh
      chance. */
  lemma FreshBitDecides(w: World, cand: UnitHash, u: UnitHash, v: bool)
    requires w.Sound() && cand in w.units && u in w.units && w.units[u].round >= w.units[cand].round + 2
    requires RoundVotes(w, cand, w.units[u].round - 1, v)
    ensures var rise := w.units[u].round - w.units[cand].round;
      Decides(w.rules, w.units, cand, u, v) <==>
        v == if rise == 2 then true else if rise == 3 then false else w.rules.coin(w.units[u].round, cand)
  {
    var us, parents := w.units, w.units[u].parents;
    assert w.rules.Admits(us[u]);
    forall c | c in parents ensures c in Supporters(w.rules, us, cand, u, v) {
      assert Linked(us, u, c);
    }
    assert Supporters(w.rules, us, cand, u, v) == parents.Keys;
    assert |parents.Keys| == |parents| == w.rules.Threshold();
  }

  /** Decisions propagate: from the deciding unit's round up, every unit of the
      world votes the decided value. */
  lemma DecisionPropagates(w: World, cand: UnitHash, u: UnitHash, v: bool, x: UnitHash)
    requires w.Sound() && cand in w.units && u in w.units && Decides(w.rules, w.units, cand, u, v)
    requires x in w.units && w.units[u].round <= w.units[x].round
    ensures Vote(w.rules, w.units, cand, x) == v
  {
    DecisionForcesRound(w, cand, u, v);
    VotesPropagate(w, cand, w.units[u].round, w.units[x].round, v);
  }

  lemma SomeParent(w: World, x: UnitHash) returns (c: NodeId)
    requires w.Sound() && x in w.units && w.units[x].round > 0
    ensures c in w.units[x].parents && Linked(w.units, x, c)
  {
    assert w.rules.Admits(w.units[x]);
    assert w.units[x].parents.Keys != {};
    c :| c in w.units[x].parents;
  }

  lemma LaterDecisionAgrees(w: World, cand: UnitHash, u: UnitHash, v: bool, x: UnitHash, y: bool)
    requires w.Sound() && cand in w.units && u in w.units && x in w.units
    requires Decides(w.rules, w.units, cand, u, v) && Decides(w.rules, w.units, cand, x, y)
    requires w.units[u].round < w.units[x].round
    ensures v == y
  {
    CertificateIsUnanimous(w, cand, x, y);
    var c := SomeParent(w, x);
    DecisionPropagates(w, cand, u, v, w.units[x].parents[c]);
  }

  /** Decisions are exclusive over the whole world, whatever the rounds of the
      two deciding units. */
  lemma DecisionsAgree(w: World, cand: UnitHash, u: UnitHash, v: bool, x: UnitHash, y: bool)
    requires w.Sound() && cand in w.units && u in w.units && x in w.units
    requires Decides(w.rules, w.units, cand, u, v) && Decides(w.rules, w.units, cand, x, y)
    ensures v == y
  {
    if w.units[u].round > w.units[x].round {
      LaterDecisionAgrees(w, cand, x, y, u, v);
    } else if w.units[u].round < w.units[x].round {
      LaterDecisionAgrees(w, cand, u, v, x, y);
    }
  }

  lemma ViewsDecideAlike(w: World, one: Units, two: Units, cand: UnitHash)
    requires w.Sound() && w.Holds(one) && w.Holds(two) && cand in one && cand in two
    ensures !(Decided(w.rules, one, cand, true) && Decided(w.rules, two, cand, false))
  {
    if Decided(w.rules, one, cand, true) && Decided(w.rules, two, cand, false) {
      DecidedGrows(w.rules, one, w.units, cand, true);
      DecidedGrows(w.rules, two, w.units, cand, false);
      var u :| u in w.units && Decides(w.rules, w.units, cand, u, true);
      var x :| x in w.units && Decides(w.rules, w.units, cand, x, false);
      DecisionsAgree(w, cand, u, true, x, false);
    }
  }

  /** Two units of one round with unanimous parent votes vote alike: their
      common honest parent has one vote. */
  lemma UnanimityCannotClash(w: World, cand: UnitHash, u: UnitHash, v: bool, x: UnitHash, y: bool)
    requires w.Sound() && cand in w.units && u in w.units && x in w.units
    requires w.units[u].round == w.units[x].round >= w.units[cand].round + 2
    requires ParentsVote(w.rules, w.units, cand, u, v) && ParentsVote(w.rules, w.units, cand, x, y)
    ensures v == y
  {
    var i := CommonParent(w, u, x);
    assert Linked(w.units, u, i) && Linked(w.units, x, i);
  }

  /** Two units of one round vote differently exactly if one of them, and only
      one, has all its parents voting against the common vote. */
  lemma VotesDifferIff(w: World, cand: UnitHash, u: UnitHash, x: UnitHash, c: bool)
    requires w.Sound() && cand in w.units && u in w.units && x in w.units
    requires w.units[u].round == w.units[x].round >= w.units[cand].round + 2
    requires c == CommonVote(w.rules, cand, w.units[cand].round, w.units[u].round)
    ensures Vote(w.rules, w.units, cand, u) != Vote(w.rules, w.units, cand, x)
      <==> ParentsVote(w.rules, w.units, cand, u, !c) != ParentsVote(w.rules, w.units, cand, x, !c)
  {
    AgainstCommon(w, cand, u, c);
    AgainstCommon(w, cand, x, c);
  }

  lemma AgainstCommon(w: World, cand: UnitHash, u: UnitHash, c: bool)
    requires w.Sound() && cand in w.units && u in w.units && w.units[cand].round + 2 <= w.units[u].round
    requires c == CommonVote(w.rules, cand, w.units[cand].round, w.units[u].round)
    ensures Vote(w.rules, w.units, cand, u) == !c <==> ParentsVote(w.rules, w.units, cand, u, !c)
  {
    VoteAggregates(w.rules, w.units, cand, u);
    var i := SomeParent(w, u);
  }

  // ----- a unanimous and a mixed unit of one round that differ -----

  /** Four nodes, no forks, unit `10 * r + c` by creator `c` at round `r`: each
      names nodes 1 to 3 as parents but for node 0's own, which name 0 to 2. So
      node 0's first unit is referenced one round up by node 0 alone. */
  const Split: Units := map h | h in {0, 1, 2, 3, 10, 11, 12, 13, 20, 21} :: SplitUnit(h)

  function SplitUnit(h: UnitHash): Unit {
    var parents := if h < 10 then map[] else Trio(h - h % 10 - 10, if h % 10 == 0 then 0 else 1);
    Unit(h / 10, h % 10, parents, None)
  }

  function Three(first: NodeId): set<NodeId> {
    {first, first + 1, first + 2}
  }

  function Trio(base: nat, first: NodeId): (parents: map<NodeId, UnitHash>)
    ensures |parents| == 3 && parents.Keys == Three(first)
    ensures forall c :: c in parents ==> parents[c] == base + c
  {
    var parents := map c | c in Three(first) :: base + c;
    assert parents.Keys == Three(first);
    parents
  }

  lemma SplitShape(rules: Rules, h: UnitHash)
    requires rules.f == 1 && h in Split
    ensures rules.Admits(Split[h]) && h == 10 * Split[h].round + Split[h].creator
  {
  }

  lemma SplitParents(h: UnitHash, c: NodeId)
    requires h in Split && h >= 10
    ensures c in Split[h].parents <==> if h % 10 == 0 then c < 3 else 1 <= c <= 3
    ensures c in Split[h].parents ==> Split[h].parents[c] == if h < 20 then c else 10 + c
  {
  }

  lemma SplitLinks(h: UnitHash, c: NodeId)
    requires h in Split && c in Split[h].parents
    ensures Linked(Split, h, c)
  {
    if h >= 10 {
      SplitParents(h, c);
      Placing(h, c);
    }
  }

  lemma Placing(h: UnitHash, c: NodeId)
    requires h in Split && h >= 10 && c < 4
    requires h >= 20 && h % 10 == 0 ==> c < 3
    ensures var p := if h < 20 then c else 10 + c; p in Split && p % 10 == c && p / 10 + 1 == h / 10
  {
    assert c in {0, 1, 2, 3};
  }

  lemma SplitSound(rules: Rules)
    requires rules.f == 1
    ensures World.World(rules, {}, Split).Sound()
  {
    forall h | h in Split
      ensures rules.Admits(Split[h]) && h == 10 * Split[h].round + Split[h].creator
    {
      SplitShape(rules, h);
    }
    forall h, c | h in Split && c in Split[h].parents ensures Linked(Split, h, c) {
      SplitLinks(h, c);
    }
  }

  lemma NotUnanimous(rules: Rules, us: Units, cand: UnitHash, u: UnitHash, c: NodeId, d: NodeId)
    requires Rooted(us) && cand in us && u in us && us[cand].round + 2 <= us[u].round
    requires c in us[u].parents && d in us[u].parents && Linked(us, u, c) && Linked(us, u, d)
    requires Vote(rules, us, cand, us[u].parents[c]) != Vote(rules, us, cand, us[u].parents[d])
    ensures forall v :: !ParentsVote(rules, us, cand, u, v)
  {
  }

  /** Same-round votes can differ though only one of the two units is unanimous:
      unit 21's parents all vote 0, unit 20's are mixed and it takes the common
      vote 1. */
  lemma MixedAndUnanimousDiffer(rules: Rules)
    requires rules.f == 1
    ensures World.World(rules, {}, Split).Sound()
    ensures Vote(rules, Split, 0, 20) && !Vote(rules, Split, 0, 21)
    ensures forall v :: !ParentsVote(rules, Split, 0, 20, v)
  {
    SplitSound(rules);
    SplitParents(20, 0);
    SplitParents(20, 1);
    forall h | h in {10, 11, 12, 13} ensures Vote(rules, Split, 0, h) == (h == 10) {
      SplitParents(h, 0);
    }
    assert Linked(Split, 20, 0) && Linked(Split, 20, 1);
    NotUnanimous(rules, Split, 0, 20, 0, 1);
    VoteAggregates(rules, Split, 0, 20);
    forall c | c in Split[21].parents
      ensures Linked(Split, 21, c) && Vote(rules, Split, 0, Split[21].parents[c]) == false
    {
      SplitParents(21, c);
      assert Linked(Split, 21, c);
      assert 10 + c in {11, 12, 13};
    }
    assert ParentsVote(rules, Split, 0, 21, false);
    AgainstCommon(World.World(rules, {}, Split), 0, 21, true);
  }

  // ----- coverage: what an R+3 unit has not seen is excluded by that very unit -----

  /** A vote of 1 at most two rounds up implies the candidate is in the voter's ancestry. */
  lemma YesVoteContains(rules: Rules, us: Units, cand: UnitHash, voter: UnitHash)
    requires Rooted(us) && cand in us && voter in us
    requires us[cand].round < us[voter].round <= us[cand].round + 2
    requires Vote(rules, us, cand, voter) && us[voter].parents != map[]
    ensures Ancestor(us, cand, voter)
  {
    var k := us[cand];
    if us[voter].round == k.round + 1 {
      assert Linked(us, voter, k.creator) && Ancestor(us, cand, us[voter].parents[k.creator]);
    } else {
      var any :| any in us[voter].parents;
      assert Linked(us, voter, any);
      var c :| c in us[voter].parents && (Linked(us, voter, c) ==> Vote(rules, us, cand, us[voter].parents[c]));
      assert Linked(us, voter, c);
      var p := us[voter].parents[c];
      assert us[p].round == k.round + 1;
      assert Linked(us, p, k.creator) && Ancestor(us, cand, us[p].parents[k.creator]);
    }
  }

  /** A unit three rounds above a candidate outside its ancestry decides it 0. */
  lemma UnseenIsExcluded(w: World, cand: UnitHash, u: UnitHash)
    requires w.Sound() && cand in w.units && u in w.units
    requires w.units[u].round == w.units[cand].round + 3 && !Ancestor(w.units, cand, u)
    ensures Decides(w.rules, w.units, cand, u, false)
  {
    var us := w.units;
    assert w.rules.Admits(us[u]);
    forall c | c in us[u].parents
      ensures Linked(us, u, c) && !Vote(w.rules, us, cand, us[u].parents[c])
    {
      assert Linked(us, u, c);
      var p := us[u].parents[c];
      assert w.rules.Admits(us[p]);
      if Vote(w.rules, us, cand, p) {
        assert us[p].parents.Keys != {};
        YesVoteContains(w.rules, us, cand, p);
        assert false;
      }
    }
    assert Supporters(w.rules, us, cand, u, false) == us[u].parents.Keys;
  }

  /** The coverage lemma: once a view holds a round R+3 unit, a round R
      candidate the view has not heard of is never decided 1 anywhere. */
  lemma Coverage(w: World, view: Units, top: UnitHash, cand: UnitHash)
    requires w.Sound() && w.Holds(view) && top in view && cand in w.units && cand !in view
    requires w.units[top].round == w.units[cand].round + 3
    ensures Decides(w.rules, w.units, cand, top, false)
    ensures !Decided(w.rules, w.units, cand, true)
  {
    if Ancestor(w.units, cand, top) {
      AncestryViewFree(view, w.units, cand, top);
      AncestryHeld(view, cand, top);
      assert false;
    }
    UnseenIsExcluded(w, cand, top);
    if Decided(w.rules, w.units, cand, true) {
      var u :| u in w.units && Decides(w.rules, w.units, cand, u, true);
      DecisionsAgree(w, cand, u, true, top, false);
    }
  }
}

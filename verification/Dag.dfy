/** Units, the hash-pinned graph they form, and the worlds the safety argument
    ranges over. A unit table is a map from hash to unit: two nodes reading the
    same hash read the same unit. */
module Dag {
  import opened Ordered

  type NodeId = nat
  type Round = nat
  type UnitHash = nat
  type Digest = nat

  /** A node of the graph. `parents` is keyed by the parent's creator, so one
      creator is referenced at most once. */
  datatype Unit = Unit(
    round: Round,
    creator: NodeId,
    parents: map<NodeId, UnitHash>,
    data: Option<Digest>
  )

  type Units = map<UnitHash, Unit>

  /** What all nodes of a session share: the number of tolerated faults and the
      seeded bits behind the common vote, about which nothing is assumed. */
  datatype Rules = Rules(f: nat, coin: (Round, UnitHash) -> bool) {
    function Total(): nat { 3 * f + 1 }

    function Threshold(): nat { 2 * f + 1 }

    /** The structural part of a unit's admission. */
    predicate Admits(u: Unit) {
      && u.creator < Total()
      && (u.round == 0 ==> u.parents == map[])
      && (u.round != 0 ==> |u.parents| == Threshold() && forall c :: c in u.parents ==> c < Total())
    }
  }

  /** Admission in numbers: a creator of the mint, and above round 0 the parents
      of exactly a quorum of its `3f + 1` nodes. */
  lemma AdmitsIff(rules: Rules, u: Unit)
    ensures rules.Admits(u) <==>
      && u.creator <= 3 * rules.f
      && if u.round == 0 then u.parents == map[]
         else |u.parents| == 2 * rules.f + 1 && forall c :: c in u.parents ==> c <= 3 * rules.f
  {
  }

  /** A quorum can be met though `f` nodes are silent, and any two share more
      than `f` nodes; no other number does both. */
  lemma QuorumIsExact(rules: Rules, t: nat)
    ensures t + rules.f <= rules.Total() && 2 * t >= rules.Total() + rules.f + 1 <==> t == rules.Threshold()
  {
  }

  /** The parent entry of `h` for `c` names a unit held in `us`, created by `c`,
      exactly one round down. */
  predicate Linked(us: Units, h: UnitHash, c: NodeId)
    requires h in us && c in us[h].parents
  {
    var p := us[h].parents[c];
    p in us && us[p].creator == c && us[p].round + 1 == us[h].round
  }

  /** Every parent entry is well placed and held: a parent-closed unit set. */
  ghost predicate Rooted(us: Units) {
    forall h, c {:trigger Linked(us, h, c)} :: h in us && c in us[h].parents ==> Linked(us, h, c)
  }

  ghost predicate Admitted(rules: Rules, us: Units) {
    forall h {:trigger rules.Admits(us[h])} :: h in us ==> rules.Admits(us[h])
  }

  ghost predicate Submap(small: Units, large: Units) {
    forall h :: h in small ==> h in large && small[h] == large[h]
  }

  /** Two units by one honest creator at one round. */
  predicate SamePosition(u: Unit, v: Unit, byzantine: set<NodeId>) {
    u.creator == v.creator && u.round == v.round && u.creator !in byzantine
  }

  /** All well-placed units of a session, with the creators that may fork. */
  datatype World = World(rules: Rules, byzantine: set<NodeId>, units: Units) {
    /** Honest creators are single-voiced: one unit a round. */
    ghost predicate SingleVoiced() {
      forall g, h {:trigger SamePosition(units[g], units[h], byzantine)} ::
        g in units && h in units && SamePosition(units[g], units[h], byzantine) ==> g == h
    }

    ghost predicate Sound() {
      && |byzantine| <= rules.f
      && Rooted(units) && Admitted(rules, units) && SingleVoiced()
    }

    /** What one node may hold extended: any parent-closed part of the world. */
    ghost predicate Holds(view: Units) {
      Rooted(view) && Submap(view, units)
    }
  }

  /** `a` is `h` or reached from it through parent entries. */
  ghost predicate Ancestor(us: Units, a: UnitHash, h: UnitHash)
    requires Rooted(us) && h in us
    decreases us[h].round
  {
    a == h || exists c :: c in us[h].parents && Linked(us, h, c) && Ancestor(us, a, us[h].parents[c])
  }

  /** The ancestry of a held unit is held. */
  lemma {:induction false} AncestryHeld(us: Units, a: UnitHash, h: UnitHash)
    requires Rooted(us) && h in us && Ancestor(us, a, h)
    ensures a in us && us[a].round <= us[h].round
    ensures a == h || us[a].round < us[h].round
    decreases us[h].round
  {
    if a != h {
      var c :| c in us[h].parents && Linked(us, h, c) && Ancestor(us, a, us[h].parents[c]);
      AncestryHeld(us, a, us[h].parents[c]);
    }
  }

  /** Ancestry reads the same in a view as in the world around it. */
  lemma {:induction false} AncestryViewFree(view: Units, large: Units, a: UnitHash, h: UnitHash)
    requires Rooted(view) && Rooted(large) && Submap(view, large) && h in view
    ensures Ancestor(view, a, h) <==> Ancestor(large, a, h)
    decreases view[h].round
  {
    forall c | c in view[h].parents
      ensures Linked(view, h, c) && Linked(large, h, c)
      ensures Ancestor(view, a, view[h].parents[c]) <==> Ancestor(large, a, view[h].parents[c])
    {
      assert Linked(view, h, c);
      AncestryViewFree(view, large, a, view[h].parents[c]);
    }
    if Ancestor(large, a, h) && a != h {
      var c :| c in large[h].parents && Linked(large, h, c) && Ancestor(large, a, large[h].parents[c]);
      assert Linked(view, h, c);
    }
  }

  lemma {:induction false} AncestorOfAncestor(us: Units, a: UnitHash, b: UnitHash, h: UnitHash)
    requires Rooted(us) && h in us && Ancestor(us, b, h) && b in us && Ancestor(us, a, b)
    ensures Ancestor(us, a, h)
    decreases us[h].round
  {
    if b != h {
      var c :| c in us[h].parents && Linked(us, h, c) && Ancestor(us, b, us[h].parents[c]);
      AncestorOfAncestor(us, a, b, us[h].parents[c]);
    }
  }

  /** A parent-closed set holding `h` holds all of its ancestry. */
  lemma {:induction false} ClosedHoldsAncestry(us: Units, s: set<UnitHash>, a: UnitHash, h: UnitHash)
    requires Rooted(us) && h in us && Ancestor(us, a, h) && h in s && ParentClosed(us, s)
    ensures a in s
    decreases us[h].round
  {
    if a != h {
      var c :| c in us[h].parents && Linked(us, h, c) && Ancestor(us, a, us[h].parents[c]);
      ClosedHoldsAncestry(us, s, a, us[h].parents[c]);
    }
  }

  ghost predicate ParentClosed(us: Units, s: set<UnitHash>) {
    forall h, c :: h in s && h in us && c in us[h].parents ==> us[h].parents[c] in s
  }

  /** Rounds of a parent-closed set are gap-free: a unit at round `top` puts one
      at every round below. */
  lemma {:induction false} RoundsGapFree(rules: Rules, us: Units, top: UnitHash, round: Round) returns (h: UnitHash)
    requires Rooted(us) && Admitted(rules, us) && top in us && round <= us[top].round
    ensures h in us && us[h].round == round && Ancestor(us, h, top)
    decreases us[top].round
  {
    if round == us[top].round {
      h := top;
    } else {
      assert rules.Admits(us[top]) && us[top].parents.Keys != {};
      var c :| c in us[top].parents;
      assert Linked(us, top, c);
      h := RoundsGapFree(rules, us, us[top].parents[c], round);
    }
  }

  /** The rounds a node ever extends are bounded by the number of units it
      holds, however high a round a forged unit claims. */
  lemma {:induction false} RoundsBounded(rules: Rules, us: Units, top: UnitHash)
    requires Rooted(us) && Admitted(rules, us) && top in us
    ensures us[top].round < |us|
  {
    var rounds := set h | h in us :: us[h].round;
    forall r | r in Below(us[top].round + 1) ensures r in rounds {
      var h := RoundsGapFree(rules, us, top, r);
    }
    SubsetSize(Below(us[top].round + 1), rounds);
    ImageSize(us, us.Keys, rounds);
  }

  lemma {:induction false} ImageSize(us: Units, s: set<UnitHash>, rounds: set<Round>)
    requires s <= us.Keys && rounds == set h | h in s :: us[h].round
    ensures |rounds| <= |s|
    decreases s
  {
    if s != {} {
      var x :| x in s;
      var fewer := set h | h in s - {x} :: us[h].round;
      ImageSize(us, s - {x}, fewer);
      assert rounds == fewer + {us[x].round};
    }
  }
}

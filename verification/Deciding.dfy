/** The vote and decision caches, and the scans that fill them. */
module Deciding {
  import opened Ordered
  import opened Dag
  import opened Voting
  import opened Election
  import opened Ordering
  import opened Storing

  /** Every memoized vote is the vote. */
  ghost predicate MemoSound(rules: Rules, us: Units, votes: map<(UnitHash, UnitHash), bool>) {
    Rooted(us) && forall c, u {:trigger (c, u) in votes} {:trigger votes[(c, u)]} ::
      (c, u) in votes ==> c in us && Votes(rules, us, c, u, votes[(c, u)])
  }

  /** `voter` votes `bit` on `cand`. */
  ghost predicate Votes(rules: Rules, us: Units, cand: UnitHash, voter: UnitHash, bit: bool)
    requires Rooted(us) && cand in us
  {
    voter in us && us[cand].round < us[voter].round && bit == Vote(rules, us, cand, voter)
  }

  /** Every cached decision has a deciding unit. */
  ghost predicate DecidedSound(rules: Rules, us: Units, decided: map<UnitHash, (bool, Round)>) {
    Rooted(us) && forall c :: c in decided ==> c in us && Decided(rules, us, c, decided[c].0)
  }

  lemma CachesGrow(rules: Rules, us: Units, larger: Units, votes: map<(UnitHash, UnitHash), bool>,
                   decided: map<UnitHash, (bool, Round)>)
    requires MemoSound(rules, us, votes) && DecidedSound(rules, us, decided)
    requires Rooted(larger) && Submap(us, larger)
    ensures MemoSound(rules, larger, votes) && DecidedSound(rules, larger, decided)
  {
    forall c, u | (c, u) in votes
      ensures c in larger && Votes(rules, larger, c, u, votes[(c, u)])
    {
      VoteViewFree(rules, us, larger, c, u);
    }
    forall c | c in decided ensures c in larger && Decided(rules, larger, c, decided[c].0) {
      DecidedGrows(rules, us, larger, c, decided[c].0);
    }
  }

  ghost predicate CachesSound(rules: Rules, us: Units, votes: map<(UnitHash, UnitHash), bool>,
                              decided: map<UnitHash, (bool, Round)>) {
    MemoSound(rules, us, votes) && DecidedSound(rules, us, decided)
  }

  /** `row` lists the units of `us` at `round`, lowest hash first. */
  ghost predicate IsRow(us: Units, round: Round, row: seq<UnitHash>) {
    && (forall i :: 0 <= i < |row| ==> row[i] in us && us[row[i]].round == round)
    && (forall h :: h in us && us[h].round == round ==> h in row)
    && (forall i, j :: 0 <= i < j < |row| ==> row[i] < row[j])
  }

  lemma RowOfRound(rounds: map<Round, set<UnitHash>>, us: Units, round: Round)
    requires ExtendedIndexed(rounds, us)
    ensures IsRow(us, round, ExtendedAt(rounds, us, round))
  {
    var row := ExtendedAt(rounds, us, round);
    if round in rounds {
      AscendingRises(set h | h in rounds[round] && h in us);
    }
    forall i | 0 <= i < |row| ensures row[i] in us && us[row[i]].round == round {
      assert row[i] in row;
      assert Listed(rounds, round, row[i]);
    }
  }

  ghost predicate Undecided(rules: Rules, us: Units, cand: UnitHash)
    requires Rooted(us) && cand in us
  {
    !Decided(rules, us, cand, true) && !Decided(rules, us, cand, false)
  }

  ghost predicate NoDeciderAt(rules: Rules, us: Units, cand: UnitHash, round: Round)
    requires Rooted(us) && cand in us
  {
    forall u, v :: u in us && us[u].round == round ==> !Decides(rules, us, cand, u, v)
  }

  ghost predicate NoDeciderBelow(rules: Rules, us: Units, cand: UnitHash, round: Round)
    requires Rooted(us) && cand in us
  {
    forall u, v :: u in us && us[u].round < round ==> !Decides(rules, us, cand, u, v)
  }

  lemma DecisionCached(rules: Rules, us: Units, decided: map<UnitHash, (bool, Round)>, cand: UnitHash, u: UnitHash,
                       v: bool, round: Round)
    requires DecidedSound(rules, us, decided) && cand in us && u in us && Decides(rules, us, cand, u, v)
    ensures Decided(rules, us, cand, v) && DecidedSound(rules, us, decided[cand := (v, round)])
  {
  }

  /** An empty round has no unit above it, so the scan may stop there. */
  lemma GapEndsScan(rules: Rules, us: Units, cand: UnitHash, round: Round)
    requires Rooted(us) && Admitted(rules, us) && cand in us
    requires NoDeciderBelow(rules, us, cand, round) && IsRow(us, round, [])
    ensures Undecided(rules, us, cand)
  {
    forall u | u in us ensures us[u].round < round {
      if round <= us[u].round {
        var h := RoundsGapFree(rules, us, u, round);
        assert false;
      }
    }
  }

  /** The first `k` units of the row do not decide `cand` as `v`. */
  ghost predicate RowClear(rules: Rules, us: Units, cand: UnitHash, row: seq<UnitHash>, k: nat, v: bool)
    requires Rooted(us) && cand in us && k <= |row|
  {
    forall j :: 0 <= j < k ==> row[j] in us && !Decides(rules, us, cand, row[j], v)
  }

  lemma TallyDecides(rules: Rules, us: Units, cand: UnitHash, row: seq<UnitHash>, i: nat, v: bool, count: nat)
    requires Rooted(us) && cand in us && i < |row| && RowClear(rules, us, cand, row, i, v) && row[i] in us
    requires us[cand].round + 2 <= us[row[i]].round && v == CommonVote(rules, cand, us[cand].round, us[row[i]].round)
    requires count == |Supporters(rules, us, cand, row[i], v)|
    ensures Decides(rules, us, cand, row[i], v) <==> count >= rules.Threshold()
    ensures count < rules.Threshold() ==> RowClear(rules, us, cand, row, i + 1, v)
  {
  }

  lemma RowScanned(rules: Rules, us: Units, cand: UnitHash, round: Round, row: seq<UnitHash>)
    requires Rooted(us) && cand in us && us[cand].round + 2 <= round && IsRow(us, round, row)
    requires RowClear(rules, us, cand, row, |row|, CommonVote(rules, cand, us[cand].round, round))
    ensures NoDeciderAt(rules, us, cand, round)
  {
    forall u, v | u in us && us[u].round == round ensures !Decides(rules, us, cand, u, v) {
      var j := IndexOf(row, u);
    }
  }

  /** The first `k` candidates of the walk are decided 0. */
  ghost predicate Excluded(rules: Rules, us: Units, row: seq<UnitHash>, k: nat)
    requires Rooted(us) && k <= |row|
  {
    forall j :: 0 <= j < k ==> row[j] in us && Decided(rules, us, row[j], false)
  }

  lemma NoTopNoHead(rules: Rules, us: Units, round: Round)
    requires Rooted(us) && IsRow(us, round + 3, [])
    ensures Head(rules, us, round) == None
  {
  }

  lemma PlaceInRow(us: Units, round: Round, row: seq<UnitHash>, c: UnitHash) returns (j: nat)
    requires IsRow(us, round, row) && c in us && us[c].round == round
    ensures j < |row| && row[j] == c
  {
    j := IndexOf(row, c);
  }

  lemma BelowInRow(us: Units, round: Round, row: seq<UnitHash>, j: nat, i: nat)
    requires IsRow(us, round, row) && i < |row| && j < |row|
    ensures row[j] < row[i] <==> j < i
  {
  }

  lemma FirstIncluded(w: World, us: Units, round: Round, row: seq<UnitHash>, i: nat, top: UnitHash)
    requires w.Sound() && w.Holds(us) && IsRow(us, round, row) && i < |row|
    requires Excluded(w.rules, us, row, i) && Decided(w.rules, us, row[i], true)
    requires top in us && us[top].round == round + 3
    ensures Head(w.rules, us, round) == Some(row[i])
  {
    var h := row[i];
    forall c | c in us && us[c].round == round && c < h ensures Decided(w.rules, us, c, false) {
      var j := PlaceInRow(us, round, row, c);
      BelowInRow(us, round, row, j, i);
    }
    assert Elects(w.rules, us, round, h);
    HeadsAgree(w, us, us, round, h, Head(w.rules, us, round).value);
  }

  /** A walk that stops at an undecided candidate, or finds every candidate
      excluded, has no head. */
  lemma WalkBlocked(w: World, us: Units, round: Round, row: seq<UnitHash>, i: nat)
    requires w.Sound() && w.Holds(us) && IsRow(us, round, row) && i <= |row|
    requires Excluded(w.rules, us, row, i) && (i < |row| ==> Undecided(w.rules, us, row[i]))
    ensures Head(w.rules, us, round) == None
  {
    forall h ensures !Elects(w.rules, us, round, h) {
      if h in us && us[h].round == round {
        var j := PlaceInRow(us, round, row, h);
        if j < i {
          ViewsDecideAlike(w, us, us, h);
        } else {
          BelowInRow(us, round, row, j, i);
          NotElectedPast(w.rules, us, round, row[i], h);
        }
      }
    }
  }

  lemma NotElectedPast(rules: Rules, us: Units, round: Round, c: UnitHash, h: UnitHash)
    requires Rooted(us) && c in us && us[c].round == round && c <= h && Undecided(rules, us, c)
    ensures !Elects(rules, us, round, h)
  {
    if Elects(rules, us, round, h) && c < h {
      ElectedOver(rules, us, round, h, c);
    }
  }

  lemma ElectedOver(rules: Rules, us: Units, round: Round, h: UnitHash, c: UnitHash)
    requires Rooted(us) && Elects(rules, us, round, h) && c in us && us[c].round == round && c < h
    ensures Decided(rules, us, c, false)
  {
  }

  lemma ExcludeOne(rules: Rules, us: Units, row: seq<UnitHash>, k: nat)
    requires Rooted(us) && k < |row| && Excluded(rules, us, row, k)
    requires row[k] in us && Decided(rules, us, row[k], false)
    ensures Excluded(rules, us, row, k + 1)
  {
  }

  lemma ScanUp(rules: Rules, us: Units, cand: UnitHash, round: Round)
    requires Rooted(us) && cand in us
    requires NoDeciderBelow(rules, us, cand, round) && NoDeciderAt(rules, us, cand, round)
    ensures NoDeciderBelow(rules, us, cand, round + 1)
  {
    forall u, v | u in us && us[u].round < round + 1 ensures !Decides(rules, us, cand, u, v) {
      if us[u].round == round {
        assert !Decides(rules, us, cand, u, v);
      }
    }
  }

  lemma SupporterIff(rules: Rules, us: Units, cand: UnitHash, u: UnitHash, v: bool, c: NodeId)
    requires Rooted(us) && cand in us && u in us && us[cand].round + 2 <= us[u].round
    requires c in us[u].parents
    ensures forall bit :: Votes(rules, us, cand, us[u].parents[c], bit) ==>
      (c in Supporters(rules, us, cand, u, v) <==> bit == v)
  {
    assert Linked(us, u, c);
  }

  lemma VoteFromBits(rules: Rules, us: Units, votes: map<(UnitHash, UnitHash), bool>,
                     cand: UnitHash, voter: UnitHash, bits: seq<bool>)
    requires MemoSound(rules, us, votes)
    requires cand in us && voter in us && us[cand].round + 2 <= us[voter].round
    requires |bits| == |ParentWalk(us[voter])| && Tallied(rules, us, cand, ParentWalk(us[voter]), bits)
    ensures var bit := Aggregate(bits, CommonVote(rules, cand, us[cand].round, us[voter].round));
      Votes(rules, us, cand, voter, bit) && MemoSound(rules, us, votes[(cand, voter) := bit])
  {
    TallyIsVote(rules, us, cand, voter, bits);
    MemoInsert(rules, us, votes, cand, voter, Vote(rules, us, cand, voter));
  }

  lemma MemoInsert(rules: Rules, us: Units, votes: map<(UnitHash, UnitHash), bool>,
                   cand: UnitHash, voter: UnitHash, bit: bool)
    requires MemoSound(rules, us, votes)
    requires cand in us && Votes(rules, us, cand, voter, bit)
    ensures MemoSound(rules, us, votes[(cand, voter) := bit])
  {
  }

  /** A parent one or more rounds above the candidate can be asked for its vote. */
  lemma MayAsk(us: Units, cand: UnitHash, voter: UnitHash, c: NodeId)
    requires Rooted(us) && cand in us && voter in us && us[cand].round + 2 <= us[voter].round
    requires c in us[voter].parents
    ensures us[voter].parents[c] in us && us[us[voter].parents[c]].round + 1 == us[voter].round
  {
    assert Linked(us, voter, c);
  }

  lemma WalkMayAsk(us: Units, cand: UnitHash, voter: UnitHash, i: nat)
    requires Rooted(us) && cand in us && voter in us && us[cand].round + 2 <= us[voter].round
    requires i < |ParentWalk(us[voter])|
    ensures var p := ParentWalk(us[voter])[i]; p in us && us[p].round + 1 == us[voter].round
  {
    WalkHeld(us, voter);
    assert ParentWalk(us[voter])[i] in ParentWalk(us[voter]);
  }

  /** `bits` are the votes of the first parents of the walk. */
  ghost predicate Tallied(rules: Rules, us: Units, cand: UnitHash, walk: seq<UnitHash>, bits: seq<bool>)
    requires Rooted(us) && cand in us
  {
    && |bits| <= |walk|
    && forall j {:trigger Votes(rules, us, cand, walk[j], bits[j])} ::
         0 <= j < |bits| ==> Votes(rules, us, cand, walk[j], bits[j])
  }

  lemma TallyMore(rules: Rules, us: Units, cand: UnitHash, walk: seq<UnitHash>, bits: seq<bool>, v: bool)
    requires Rooted(us) && cand in us && |bits| < |walk|
    requires Tallied(rules, us, cand, walk, bits) && Votes(rules, us, cand, walk[|bits|], v)
    ensures Tallied(rules, us, cand, walk, bits + [v])
  {
    forall j | 0 <= j < |bits| + 1 ensures Votes(rules, us, cand, walk[j], (bits + [v])[j]) {
      if j < |bits| {
        assert Votes(rules, us, cand, walk[j], bits[j]);
      }
    }
  }

  lemma VisitOne(s: seq<nat>, i: nat)
    requires i < |s|
    ensures s[i] in s && Elements(s[..i + 1]) == Elements(s[..i]) + {s[i]}
  {
    assert s[..i + 1] == s[..i] + [s[i]];
  }

  /** How many of the first `i` entries are in `all`. */
  ghost function CountUpTo(all: set<nat>, s: seq<nat>, i: nat): nat
    requires i <= |s|
  {
    if i == 0 then 0 else CountUpTo(all, s, i - 1) + if s[i - 1] in all then 1 else 0
  }

  ghost function FirstOf(s: seq<nat>, i: nat): set<nat>
    requires i <= |s|
  {
    if i == 0 then {} else FirstOf(s, i - 1) + {s[i - 1]}
  }

  lemma {:induction false} FirstAre(s: seq<nat>, i: nat)
    requires i <= |s|
    ensures forall x :: x in FirstOf(s, i) <==> exists k :: 0 <= k < i && s[k] == x
    decreases i
  {
    if i > 0 {
      FirstAre(s, i - 1);
      assert s[i - 1] == s[i - 1];
    }
  }

  lemma {:induction false} CountIs(all: set<nat>, s: seq<nat>, i: nat)
    requires i <= |s| && forall k :: 0 <= k < i ==> NewAt(s, k)
    ensures CountUpTo(all, s, i) == |all * FirstOf(s, i)|
    decreases i
  {
    if i > 0 {
      CountIs(all, s, i - 1);
      assert NewAt(s, i - 1);
      OneMember(all, FirstOf(s, i - 1), s[i - 1]);
    }
  }

  ghost predicate NewAt(s: seq<nat>, k: nat)
    requires k < |s|
  {
    s[k] !in FirstOf(s, k)
  }

  lemma OneMember(all: set<nat>, part: set<nat>, x: nat)
    requires x !in part
    ensures |all * (part + {x})| == |all * part| + if x in all then 1 else 0
  {
    if x in all {
      assert all * (part + {x}) == all * part + {x};
    } else {
      assert all * (part + {x}) == all * part;
    }
  }

  /** Walking all of a set counts the members of a part of it. */
  lemma CountAll(all: set<nat>, keys: set<nat>)
    requires all <= keys
    ensures CountUpTo(all, Ascending(keys), |keys|) == |all|
  {
    var s := Ascending(keys);
    forall k | 0 <= k < |s| ensures NewAt(s, k) {
      AscendingRises(keys);
      FirstAre(s, k);
    }
    CountIs(all, s, |s|);
    FirstAre(s, |s|);
    assert all * FirstOf(s, |s|) == all;
  }

  lemma BitsToParents(rules: Rules, us: Units, cand: UnitHash, voter: UnitHash, bits: seq<bool>, v: bool)
    requires Rooted(us) && cand in us && voter in us && us[cand].round + 2 <= us[voter].round
    requires |bits| == |ParentWalk(us[voter])| && Tallied(rules, us, cand, ParentWalk(us[voter]), bits)
    requires forall j :: 0 <= j < |bits| ==> bits[j] == v
    ensures ParentsVote(rules, us, cand, voter, v)
  {
    var u, walk := us[voter], ParentWalk(us[voter]);
    forall c | c in u.parents ensures Linked(us, voter, c) && Vote(rules, us, cand, u.parents[c]) == v {
      assert Linked(us, voter, c);
      var j := IndexOf(walk, u.parents[c]);
      assert Votes(rules, us, cand, walk[j], bits[j]);
    }
  }

  lemma ParentsToBits(rules: Rules, us: Units, cand: UnitHash, voter: UnitHash, bits: seq<bool>, v: bool, j: nat)
    requires Rooted(us) && cand in us && voter in us && us[cand].round + 2 <= us[voter].round
    requires |bits| == |ParentWalk(us[voter])| && Tallied(rules, us, cand, ParentWalk(us[voter]), bits)
    requires ParentsVote(rules, us, cand, voter, v) && j < |bits|
    ensures bits[j] == v
  {
    var u, walk := us[voter], ParentWalk(us[voter]);
    assert Votes(rules, us, cand, walk[j], bits[j]);
    assert walk[j] in walk;
    var c :| c in u.parents && u.parents[c] == walk[j];
    assert Linked(us, voter, c) && Vote(rules, us, cand, u.parents[c]) == v;
  }

  /** Unanimity of the collected bits is unanimity of the parents. */
  lemma UnanimousBits(rules: Rules, us: Units, cand: UnitHash, voter: UnitHash, bits: seq<bool>, v: bool)
    requires Rooted(us) && cand in us && voter in us && us[cand].round + 2 <= us[voter].round
    requires |bits| == |ParentWalk(us[voter])| && Tallied(rules, us, cand, ParentWalk(us[voter]), bits)
    ensures (forall j :: 0 <= j < |bits| ==> bits[j] == v) <==> ParentsVote(rules, us, cand, voter, v)
  {
    if forall j :: 0 <= j < |bits| ==> bits[j] == v {
      BitsToParents(rules, us, cand, voter, bits, v);
    }
    if ParentsVote(rules, us, cand, voter, v) {
      forall j: nat | j < |bits| ensures bits[j] == v {
        ParentsToBits(rules, us, cand, voter, bits, v, j);
      }
    }
  }

  function Aggregate(bits: seq<bool>, default_: bool): bool {
    if forall j :: 0 <= j < |bits| ==> bits[j] == true then true
    else if forall j :: 0 <= j < |bits| ==> bits[j] == false then false
    else default_
  }

  lemma TallyIsVote(rules: Rules, us: Units, cand: UnitHash, voter: UnitHash, bits: seq<bool>)
    requires Rooted(us) && cand in us && voter in us && us[cand].round + 2 <= us[voter].round
    requires |bits| == |ParentWalk(us[voter])| && Tallied(rules, us, cand, ParentWalk(us[voter]), bits)
    ensures Vote(rules, us, cand, voter) == Aggregate(bits, CommonVote(rules, cand, us[cand].round, us[voter].round))
  {
    UnanimousBits(rules, us, cand, voter, bits, true);
    UnanimousBits(rules, us, cand, voter, bits, false);
    VoteAggregates(rules, us, cand, voter);
  }
}

/** From heads to the total order: a head's unseen ancestry is swept breadth
    first and emitted oldest first, round after round. */
module Ordering {
  import opened Ordered
  import opened Dag
  import opened Election

  function Elements<T(==)>(s: seq<T>): set<T> {
    set x | x in s
  }

  ghost predicate Distinct<T>(s: seq<T>) {
    forall i, j :: 0 <= i < j < |s| ==> s[i] != s[j]
  }

  /** The parent entries of the listed creators, in list order. */
  function EntriesOf(parents: map<NodeId, UnitHash>, creators: seq<NodeId>): (walk: seq<UnitHash>)
    requires forall c :: c in creators ==> c in parents
    ensures forall c :: c in creators ==> parents[c] in walk
    ensures forall p :: p in walk ==> exists c :: c in parents && parents[c] == p
  {
    if creators == [] then [] else [parents[creators[0]]] + EntriesOf(parents, creators[1..])
  }

  /** The parents of a unit in the order its parent map is walked. */
  function ParentWalk(u: Unit): (walk: seq<UnitHash>)
    ensures forall c :: c in u.parents ==> u.parents[c] in walk
    ensures forall p :: p in walk ==> exists c :: c in u.parents && u.parents[c] == p
  {
    var creators := Ascending(u.parents.Keys);
    assert forall c :: c in u.parents ==> c in creators;
    EntriesOf(u.parents, creators)
  }

  /** The elements of `walk` outside `seen`, each where it first occurs. */
  function Discover(walk: seq<UnitHash>, seen: set<UnitHash>): (found: seq<UnitHash>)
    ensures forall x :: x in found <==> x in walk && x !in seen
    ensures Distinct(found)
  {
    if walk == [] then []
    else if walk[0] in seen then Discover(walk[1..], seen)
    else [walk[0]] + Discover(walk[1..], seen + {walk[0]})
  }

  function Unmarked(us: Units, base: set<UnitHash>, trail: seq<UnitHash>): set<UnitHash> {
    us.Keys - base - Elements(trail)
  }

  /** Taking one unit off the queue marks new units or leaves the trail as it is. */
  lemma MarksShrink(us: Units, base: set<UnitHash>, trail: seq<UnitHash>, k: nat)
    requires Rooted(us) && k < |trail| && forall h :: h in trail ==> h in us
    ensures trail[k] in us
    ensures forall h :: h in trail + Fresh(us, base, trail, k) ==> h in us
    ensures var found := Fresh(us, base, trail, k);
      if found == [] then trail + found == trail
      else Unmarked(us, base, trail + found) < Unmarked(us, base, trail)
  {
    assert trail[k] in trail;
    var found := Fresh(us, base, trail, k);
    FreshHeld(us, base, trail, k);
    if found == [] {
      assert trail + found == trail;
    } else {
      var x := found[0];
      assert x in found && x in trail + found;
      assert x in Unmarked(us, base, trail) && x !in Unmarked(us, base, trail + found);
      forall y | y in trail ensures y in trail + found {
        var i :| 0 <= i < |trail| && trail[i] == y;
        assert (trail + found)[i] == y;
      }
    }
  }

  /** Breadth-first sweep. `trail[..k]` is the batch so far, `trail[k..]` the
      queue; everything in `base` or on the trail is marked. */
  function Sweep(us: Units, base: set<UnitHash>, trail: seq<UnitHash>, k: nat): seq<UnitHash>
    requires Rooted(us) && k <= |trail| && forall h :: h in trail ==> h in us
    decreases Unmarked(us, base, trail), |trail| - k
  {
    if k == |trail| then trail else
      MarksShrink(us, base, trail, k);
      Sweep(us, base, trail + Fresh(us, base, trail, k), k + 1)
  }

  /** The parents first discovered when `trail[k]` is taken off the queue. */
  function Fresh(us: Units, base: set<UnitHash>, trail: seq<UnitHash>, k: nat): (found: seq<UnitHash>)
    requires k < |trail| && trail[k] in us
  {
    Discover(ParentWalk(us[trail[k]]), base + Elements(trail))
  }

  lemma WalkHeld(us: Units, h: UnitHash)
    requires Rooted(us) && h in us
    ensures forall p :: p in ParentWalk(us[h]) ==> p in us && us[p].round + 1 == us[h].round
  {
    forall p | p in ParentWalk(us[h]) ensures p in us && us[p].round + 1 == us[h].round {
      var c :| c in us[h].parents && us[h].parents[c] == p;
      assert Linked(us, h, c);
    }
  }

  lemma FreshHeld(us: Units, base: set<UnitHash>, trail: seq<UnitHash>, k: nat)
    requires Rooted(us) && k < |trail| && trail[k] in us
    ensures Distinct(Fresh(us, base, trail, k))
    ensures forall x :: x in Fresh(us, base, trail, k) ==>
      x in us && x !in base && x !in trail && us[x].round + 1 == us[trail[k]].round
  {
    WalkHeld(us, trail[k]);
  }

  function Reversed(s: seq<UnitHash>): (r: seq<UnitHash>)
    ensures |r| == |s| && forall i :: 0 <= i < |s| ==> r[i] == s[|s| - 1 - i]
    ensures forall x :: x in r <==> x in s
  {
    var r := seq(|s|, i requires 0 <= i < |s| => s[|s| - 1 - i]);
    assert forall i :: 0 <= i < |s| ==> s[i] == r[|s| - 1 - i];
    r
  }

  /** What a head emits on top of `base`, oldest first. */
  function Batch(us: Units, base: set<UnitHash>, head: UnitHash): seq<UnitHash>
    requires Rooted(us) && head in us
  {
    Reversed(Sweep(us, base, [head], 0))
  }

  /** All parents of `h` are marked. */
  ghost predicate Covered(us: Units, base: set<UnitHash>, trail: seq<UnitHash>, h: UnitHash) {
    h in us && forall c :: c in us[h].parents ==> us[h].parents[c] in base || us[h].parents[c] in trail
  }

  /** `x` belongs to what `head` emits on top of `base`. */
  ghost predicate Fetched(us: Units, base: set<UnitHash>, head: UnitHash, x: UnitHash)
    requires Rooted(us) && head in us
  {
    x in us && x !in base && Ancestor(us, x, head)
  }

  /** What the sweep from `head` keeps. */
  ghost predicate OnTrail(us: Units, base: set<UnitHash>, head: UnitHash, trail: seq<UnitHash>, k: nat)
    requires Rooted(us)
  {
    && 0 < |trail| && k <= |trail| && trail[0] == head && head in us
    && (forall x :: x in trail ==> Fetched(us, base, head, x))
    && Distinct(trail)
    && (forall i :: 0 <= i < k ==> Covered(us, base, trail, trail[i]))
    && RoundsFall(us, trail, k)
  }

  lemma FoundOnTrail(us: Units, base: set<UnitHash>, head: UnitHash, trail: seq<UnitHash>, k: nat, x: UnitHash)
    requires Rooted(us) && head in us && k < |trail| && trail[k] in us && Ancestor(us, trail[k], head)
    requires x in Fresh(us, base, trail, k)
    ensures Ancestor(us, x, head)
  {
    var c :| c in us[trail[k]].parents && us[trail[k]].parents[c] == x;
    ParentIsAncestor(us, trail[k], c, head);
  }

  lemma NowCovered(us: Units, base: set<UnitHash>, trail: seq<UnitHash>, k: nat)
    requires k < |trail| && trail[k] in us
    ensures Covered(us, base, trail + Fresh(us, base, trail, k), trail[k])
  {
    var h := trail[k];
    forall c | c in us[h].parents
      ensures us[h].parents[c] in base || us[h].parents[c] in trail + Fresh(us, base, trail, k)
    {
      var p := us[h].parents[c];
      assert p in ParentWalk(us[h]);
    }
  }

  lemma StillCovered(us: Units, base: set<UnitHash>, trail: seq<UnitHash>, found: seq<UnitHash>, h: UnitHash)
    requires Covered(us, base, trail, h)
    ensures Covered(us, base, trail + found, h)
  {
    forall c | c in us[h].parents ensures us[h].parents[c] in base || us[h].parents[c] in trail + found {
      assert us[h].parents[c] in base || us[h].parents[c] in trail;
    }
  }

  ghost predicate RoundsFall(us: Units, trail: seq<UnitHash>, k: nat)
    requires forall x :: x in trail ==> x in us
  {
    && (forall i, j :: 0 <= i < j < |trail| ==> us[trail[i]].round >= us[trail[j]].round)
    && (k < |trail| ==> forall j :: 0 <= j < |trail| ==> us[trail[j]].round + 1 >= us[trail[k]].round)
  }

  lemma RoundsKeepFalling(us: Units, trail: seq<UnitHash>, found: seq<UnitHash>, k: nat)
    requires (forall x :: x in trail ==> x in us) && (forall x :: x in found ==> x in us)
    requires k < |trail| && RoundsFall(us, trail, k)
    requires forall x :: x in found ==> us[x].round + 1 == us[trail[k]].round
    ensures forall x :: x in trail + found ==> x in us
    ensures RoundsFall(us, trail + found, k + 1)
  {
    var longer := trail + found;
    forall j | 0 <= j < |longer| ensures us[longer[j]].round + 1 >= us[trail[k]].round {
      if j >= |trail| {
        assert longer[j] in found;
      }
    }
    forall i, j | 0 <= i < j < |longer| ensures us[longer[i]].round >= us[longer[j]].round {
      if j >= |trail| {
        assert longer[j] in found;
        if i >= |trail| {
          assert longer[i] in found;
        }
      }
    }
    if k + 1 < |longer| {
      assert us[longer[k]].round >= us[longer[k + 1]].round;
    }
  }

  lemma StepOnTrail(us: Units, base: set<UnitHash>, head: UnitHash, trail: seq<UnitHash>, k: nat)
    requires Rooted(us) && OnTrail(us, base, head, trail, k) && k < |trail|
    ensures trail[k] in us && OnTrail(us, base, head, trail + Fresh(us, base, trail, k), k + 1)
  {
    assert trail[k] in trail && Fetched(us, base, head, trail[k]);
    var found := Fresh(us, base, trail, k);
    FreshHeld(us, base, trail, k);
    forall x | x in trail + found ensures Fetched(us, base, head, x) {
      if x in found {
        FoundOnTrail(us, base, head, trail, k, x);
      }
    }
    forall x | x in trail ensures x in us {
      assert Fetched(us, base, head, x);
    }
    RoundsKeepFalling(us, trail, found, k);
    StillDistinct(trail, found);
    StepCovers(us, base, trail, k);
  }

  lemma StepCovers(us: Units, base: set<UnitHash>, trail: seq<UnitHash>, k: nat)
    requires k < |trail| && trail[k] in us && forall i :: 0 <= i < k ==> Covered(us, base, trail, trail[i])
    ensures var longer := trail + Fresh(us, base, trail, k);
      forall i :: 0 <= i < k + 1 ==> Covered(us, base, longer, longer[i])
  {
    var longer := trail + Fresh(us, base, trail, k);
    forall i | 0 <= i < k + 1 ensures Covered(us, base, longer, longer[i]) {
      if i < k {
        StillCovered(us, base, trail, Fresh(us, base, trail, k), trail[i]);
      } else {
        NowCovered(us, base, trail, k);
      }
    }
  }

  lemma StillDistinct(a: seq<UnitHash>, b: seq<UnitHash>)
    requires Distinct(a) && Distinct(b) && forall x :: x in b ==> x !in a
    ensures Distinct(a + b)
  {
    forall i, j | 0 <= i < j < |a + b| ensures (a + b)[i] != (a + b)[j] {
      if i < |a| <= j {
        assert (a + b)[j] in b && (a + b)[i] in a;
      }
    }
  }

  /** A finished trail and its base are parent-closed, so they hold all ancestry. */
  lemma FinishedTrail(us: Units, base: set<UnitHash>, head: UnitHash, trail: seq<UnitHash>, x: UnitHash)
    requires Rooted(us) && OnTrail(us, base, head, trail, |trail|) && ParentClosed(us, base)
    requires Ancestor(us, x, head) && x !in base
    ensures x in trail
  {
    var all := base + Elements(trail);
    forall h, c | h in all && h in us && c in us[h].parents ensures us[h].parents[c] in all {
      if h in trail {
        var i :| 0 <= i < |trail| && trail[i] == h;
        assert Covered(us, base, trail, trail[i]);
      } else {
        assert us[h].parents[c] in base;
      }
    }
    ClosedHoldsAncestry(us, all, x, head);
  }

  /** What the sweep yields: the head's ancestry outside `base`, each unit once,
      rounds descending. */
  ghost predicate Swept(us: Units, base: set<UnitHash>, head: UnitHash, full: seq<UnitHash>)
    requires Rooted(us) && head in us
  {
    && Distinct(full)
    && (forall x :: x in full ==> Fetched(us, base, head, x))
    && (forall x :: Ancestor(us, x, head) && x !in base ==> x in full)
    && (forall i, j :: 0 <= i < j < |full| ==>
          full[i] in us && full[j] in us && us[full[i]].round >= us[full[j]].round)
  }

  lemma {:induction false} SweepIsAncestry(us: Units, base: set<UnitHash>, head: UnitHash, trail: seq<UnitHash>, k: nat)
    requires Rooted(us) && OnTrail(us, base, head, trail, k) && ParentClosed(us, base)
    ensures Swept(us, base, head, Sweep(us, base, trail, k))
    decreases Unmarked(us, base, trail), |trail| - k
  {
    if k == |trail| {
      forall x | Ancestor(us, x, head) && x !in base ensures x in trail {
        FinishedTrail(us, base, head, trail, x);
      }
    } else {
      StepOnTrail(us, base, head, trail, k);
      MarksShrink(us, base, trail, k);
      SweepIsAncestry(us, base, head, trail + Fresh(us, base, trail, k), k + 1);
    }
  }

  /** A batch is exactly the head's ancestors not yet emitted, each once,
      rounds ascending. */
  ghost predicate IsBatch(us: Units, base: set<UnitHash>, head: UnitHash, batch: seq<UnitHash>)
    requires Rooted(us) && head in us
  {
    && Distinct(batch)
    && (forall x :: x in batch ==> x in us && x !in base && Ancestor(us, x, head))
    && (forall x :: Ancestor(us, x, head) && x !in base ==> x in batch)
    && (forall i, j :: 0 <= i < j < |batch| ==>
          batch[i] in us && batch[j] in us && us[batch[i]].round <= us[batch[j]].round)
  }

  lemma BatchIsAncestry(us: Units, base: set<UnitHash>, head: UnitHash)
    requires Rooted(us) && head in us && head !in base && ParentClosed(us, base)
    ensures IsBatch(us, base, head, Batch(us, base, head))
  {
    assert Ancestor(us, head, head);
    SweepIsAncestry(us, base, head, [head], 0);
    ReversedSweep(us, base, head, Sweep(us, base, [head], 0));
  }

  lemma ReversedSweep(us: Units, base: set<UnitHash>, head: UnitHash, full: seq<UnitHash>)
    requires Rooted(us) && head in us && Swept(us, base, head, full)
    ensures IsBatch(us, base, head, Reversed(full))
  {
    var batch := Reversed(full);
    forall i, j | 0 <= i < j < |batch|
      ensures batch[i] in us && batch[j] in us && us[batch[i]].round <= us[batch[j]].round && batch[i] != batch[j]
    {
      var a, b := |full| - 1 - j, |full| - 1 - i;
      assert full[a] in us && full[b] in us && us[full[a]].round >= us[full[b]].round;
    }
    assert forall x :: x in batch ==> Fetched(us, base, head, x);
  }

  lemma SweepStep(us: Units, base: set<UnitHash>, trail: seq<UnitHash>, k: nat)
    requires Rooted(us) && k < |trail| && forall h :: h in trail ==> h in us
    ensures trail[k] in us
    ensures forall h :: h in trail + Fresh(us, base, trail, k) ==> h in us
    ensures Sweep(us, base, trail, k) == Sweep(us, base, trail + Fresh(us, base, trail, k), k + 1)
  {
    MarksShrink(us, base, trail, k);
  }

  lemma {:induction false} SweepViewFree(view: Units, large: Units, base: set<UnitHash>, trail: seq<UnitHash>, k: nat)
    requires Rooted(view) && Rooted(large) && Submap(view, large)
    requires k <= |trail| && forall h :: h in trail ==> h in view
    ensures Sweep(view, base, trail, k) == Sweep(large, base, trail, k)
    decreases Unmarked(view, base, trail), |trail| - k
  {
    if k < |trail| {
      MarksShrink(view, base, trail, k);
      SweepStep(view, base, trail, k);
      SweepStep(large, base, trail, k);
      SweepViewFree(view, large, base, trail + Fresh(view, base, trail, k), k + 1);
    }
  }

  // ----- the run over all rounds -----

  /** Where the extender stands: the next round to elect and what it has emitted. */
  datatype Progress = Progress(next: Round, order: seq<UnitHash>)

  const Start := Progress(0, [])

  function Emit(us: Units, p: Progress, head: UnitHash): Progress
    requires Rooted(us) && head in us
  {
    Progress(p.next + 1, p.order + Batch(us, Elements(p.order), head))
  }

  function UnitsFrom(us: Units, round: Round): set<UnitHash> {
    set h | h in us && us[h].round >= round
  }

  /** Elect and emit from `p` for as long as rounds resolve over `us`. */
  ghost function Run(rules: Rules, us: Units, p: Progress): Progress
    requires Rooted(us)
    decreases UnitsFrom(us, p.next)
  {
    match Head(rules, us, p.next)
    case None => p
    case Some(head) =>
      assert head in UnitsFrom(us, p.next) && head !in UnitsFrom(us, p.next + 1);
      Run(rules, us, Emit(us, p, head))
  }

  /** Emission is causal: each unit once, after all of its parents. */
  ghost predicate Causal(us: Units, order: seq<UnitHash>) {
    Distinct(order) && forall i :: 0 <= i < |order| ==> ParentsBefore(us, order, i)
  }

  ghost predicate ParentsBefore(us: Units, order: seq<UnitHash>, i: nat)
    requires i < |order|
  {
    order[i] in us && forall c :: c in us[order[i]].parents ==> us[order[i]].parents[c] in order[..i]
  }

  /** What the extender keeps between rounds. */
  ghost predicate Underway(us: Units, p: Progress) {
    Causal(us, p.order) && forall x :: x in p.order ==> x in us && us[x].round < p.next
  }

  lemma CausalIsClosed(us: Units, order: seq<UnitHash>)
    requires Causal(us, order)
    ensures ParentClosed(us, Elements(order))
  {
    forall h, c | h in Elements(order) && h in us && c in us[h].parents ensures us[h].parents[c] in Elements(order) {
      var i := IndexOf(order, h);
      assert ParentsBefore(us, order, i);
    }
  }

  /** The head of the next round is never emitted yet, and emitting it keeps
      the order causal: each unit once over the whole run, parents first. */
  lemma EmitUnderway(us: Units, p: Progress, head: UnitHash)
    requires Rooted(us) && Underway(us, p) && head in us && us[head].round == p.next
    ensures head !in p.order
    ensures Underway(us, Emit(us, p, head))
  {
    var base := Elements(p.order);
    CausalIsClosed(us, p.order);
    BatchIsAncestry(us, base, head);
    var batch := Batch(us, base, head);
    forall x | x in batch ensures x in us && us[x].round < p.next + 1 {
      AncestryHeld(us, x, head);
    }
    AppendedCausal(us, p.order, head, batch);
  }

  lemma AppendedCausal(us: Units, order: seq<UnitHash>, head: UnitHash, batch: seq<UnitHash>)
    requires Rooted(us) && Causal(us, order) && head in us && IsBatch(us, Elements(order), head, batch)
    ensures Causal(us, order + batch)
  {
    var longer := order + batch;
    StillDistinct(order, batch);
    forall i | 0 <= i < |longer| ensures ParentsBefore(us, longer, i) {
      if i < |order| {
        assert ParentsBefore(us, order, i);
        assert longer[..i] == order[..i];
      } else {
        BatchParentsFirst(us, Elements(order), head, batch, i - |order|);
        assert longer[..i] == order + batch[..i - |order|];
      }
    }
  }

  lemma BatchParentsFirst(us: Units, base: set<UnitHash>, head: UnitHash, batch: seq<UnitHash>, i: nat)
    requires Rooted(us) && head in us && IsBatch(us, base, head, batch) && i < |batch|
    ensures batch[i] in us
    ensures forall c ::
      c in us[batch[i]].parents ==> us[batch[i]].parents[c] in base || us[batch[i]].parents[c] in batch[..i]
  {
    var h := batch[i];
    assert h in batch;
    forall c | c in us[h].parents && us[h].parents[c] !in base ensures us[h].parents[c] in batch[..i] {
      var p := us[h].parents[c];
      assert Linked(us, h, c);
      ParentIsAncestor(us, h, c, head);
      var j := IndexOf(batch, p);
      EarlierByRound(us, batch, j, i);
      assert batch[..i][j] == p;
    }
  }

  lemma EarlierByRound(us: Units, batch: seq<UnitHash>, j: nat, i: nat)
    requires j < |batch| && i < |batch| && forall x :: x in batch ==> x in us
    requires forall i, j :: 0 <= i < j < |batch| ==>
      batch[i] in us && batch[j] in us && us[batch[i]].round <= us[batch[j]].round
    requires us[batch[j]].round < us[batch[i]].round
    ensures j < i
  {
  }

  lemma ParentIsAncestor(us: Units, h: UnitHash, c: NodeId, head: UnitHash)
    requires Rooted(us) && head in us && h in us && Ancestor(us, h, head) && c in us[h].parents
    ensures Ancestor(us, us[h].parents[c], head)
  {
    assert Linked(us, h, c);
    assert Ancestor(us, us[h].parents[c], us[h].parents[c]);
    AncestorOfAncestor(us, us[h].parents[c], h, head);
  }

  lemma IndexOf(s: seq<UnitHash>, x: UnitHash) returns (i: nat)
    requires x in s
    ensures i < |s| && s[i] == x
  {
    i :| 0 <= i < |s| && s[i] == x;
  }

  lemma {:induction false} RunUnderway(rules: Rules, us: Units, p: Progress)
    requires Rooted(us) && Underway(us, p)
    ensures Underway(us, Run(rules, us, p))
    ensures p.order <= Run(rules, us, p).order && p.next <= Run(rules, us, p).next
    decreases UnitsFrom(us, p.next)
  {
    match Head(rules, us, p.next)
    case None =>
    case Some(head) =>
      assert head in UnitsFrom(us, p.next) && head !in UnitsFrom(us, p.next + 1);
      EmitUnderway(us, p, head);
      RunUnderway(rules, us, Emit(us, p, head));
  }

  lemma UnderwayGrows(view: Units, grown: Units, p: Progress)
    requires Submap(view, grown) && Underway(view, p)
    ensures Underway(grown, p)
  {
    forall i | 0 <= i < |p.order| ensures ParentsBefore(grown, p.order, i) {
      assert ParentsBefore(view, p.order, i);
    }
  }

  lemma HeadGrows(w: World, view: Units, grown: Units, round: Round)
    requires w.Sound() && w.Holds(view) && w.Holds(grown) && Submap(view, grown)
    requires Head(w.rules, view, round).Some?
    ensures Head(w.rules, grown, round) == Head(w.rules, view, round)
  {
    var h := Head(w.rules, view, round).value;
    HeadStays(w, view, grown, round, h);
    HeadsAgree(w, view, grown, round, h, Head(w.rules, grown, round).value);
  }

  lemma EmitViewFree(w: World, view: Units, grown: Units, p: Progress, head: UnitHash)
    requires w.Holds(view) && Rooted(grown) && Submap(view, grown) && head in view
    ensures Emit(view, p, head) == Emit(grown, p, head)
  {
    SweepViewFree(view, grown, Elements(p.order), [head], 0);
  }

  /** The incremental run equals the run from scratch: resuming over a grown
      view reaches what one run over the grown view reaches. */
  lemma {:induction false} RunResumes(w: World, view: Units, grown: Units, p: Progress)
    requires w.Sound() && w.Holds(view) && w.Holds(grown) && Submap(view, grown)
    ensures Run(w.rules, grown, Run(w.rules, view, p)) == Run(w.rules, grown, p)
    decreases UnitsFrom(view, p.next)
  {
    match Head(w.rules, view, p.next)
    case None =>
    case Some(head) =>
      assert head in UnitsFrom(view, p.next) && head !in UnitsFrom(view, p.next + 1);
      HeadGrows(w, view, grown, p.next);
      EmitViewFree(w, view, grown, p, head);
      RunResumes(w, view, grown, Emit(view, p, head));
  }

  lemma {:induction false} RunOnlyAppends(rules: Rules, us: Units, p: Progress)
    requires Rooted(us)
    ensures p.order <= Run(rules, us, p).order && p.next <= Run(rules, us, p).next
    decreases UnitsFrom(us, p.next)
  {
    match Head(rules, us, p.next)
    case None =>
    case Some(head) =>
      assert head in UnitsFrom(us, p.next) && head !in UnitsFrom(us, p.next + 1);
      RunOnlyAppends(rules, us, Emit(us, p, head));
  }

  /** The run goes on exactly as long as rounds have heads. */
  lemma {:induction false} RunExhausts(rules: Rules, us: Units, p: Progress)
    requires Rooted(us)
    ensures p.next <= Run(rules, us, p).next && AllHeaded(rules, us, p.next, Run(rules, us, p).next)
    ensures Head(rules, us, Run(rules, us, p).next).None?
    decreases UnitsFrom(us, p.next)
  {
    match Head(rules, us, p.next)
    case None =>
    case Some(head) =>
      assert head in UnitsFrom(us, p.next) && head !in UnitsFrom(us, p.next + 1);
      RunExhausts(rules, us, Emit(us, p, head));
      OneMoreHeaded(rules, us, p.next, Run(rules, us, Emit(us, p, head)).next);
  }

  ghost predicate AllHeaded(rules: Rules, us: Units, low: Round, high: Round)
    requires Rooted(us)
  {
    forall r :: low <= r < high ==> Head(rules, us, r).Some?
  }

  lemma OneMoreHeaded(rules: Rules, us: Units, low: Round, high: Round)
    requires Rooted(us) && Head(rules, us, low).Some? && AllHeaded(rules, us, low + 1, high)
    ensures AllHeaded(rules, us, low, high)
  {
  }

  /** `x` is an ancestor of the head of one of the rounds. */
  ghost predicate UnderHead(rules: Rules, us: Units, low: Round, high: Round, x: UnitHash)
    requires Rooted(us)
  {
    exists r :: low <= r < high && Head(rules, us, r).Some? && Ancestor(us, x, Head(rules, us, r).value)
  }

  /** What a run emits is exactly the ancestry of the heads of its rounds. */
  lemma {:induction false} RunEmitsAncestry(rules: Rules, us: Units, p: Progress, x: UnitHash)
    requires Rooted(us) && Underway(us, p)
    ensures x in Run(rules, us, p).order <==> x in p.order || UnderHead(rules, us, p.next, Run(rules, us, p).next, x)
    decreases UnitsFrom(us, p.next)
  {
    match Head(rules, us, p.next)
    case None => RunExhausts(rules, us, p);
    case Some(head) =>
      assert head in UnitsFrom(us, p.next) && head !in UnitsFrom(us, p.next + 1);
      var q := Emit(us, p, head);
      EmitUnderway(us, p, head);
      CausalIsClosed(us, p.order);
      BatchIsAncestry(us, Elements(p.order), head);
      RunEmitsAncestry(rules, us, q, x);
      RunExhausts(rules, us, q);
      assert x in q.order <==> x in p.order || Ancestor(us, x, head);
      UnderOneMore(rules, us, p.next, Run(rules, us, p).next, x);
  }

  lemma UnderOneMore(rules: Rules, us: Units, low: Round, high: Round, x: UnitHash)
    requires Rooted(us) && low < high && Head(rules, us, low).Some?
    ensures UnderHead(rules, us, low, high, x) <==>
      Ancestor(us, x, Head(rules, us, low).value) || UnderHead(rules, us, low + 1, high, x)
  {
  }

  lemma RunAdvances(rules: Rules, us: Units, p: Progress)
    requires Rooted(us) && Head(rules, us, p.next).Some?
    ensures p.order <= Run(rules, us, p).order && p.next < Run(rules, us, p).next
  {
    var head := Head(rules, us, p.next).value;
    assert head in UnitsFrom(us, p.next) && head !in UnitsFrom(us, p.next + 1);
    var q := Emit(us, p, head);
    assert p.order <= q.order;
    RunOnlyAppends(rules, us, q);
  }

  /** The progress that resolved fewer rounds is a prefix of the other. */
  ghost predicate Comparable(a: Progress, b: Progress) {
    (a.next <= b.next ==> a.order <= b.order) && (b.next <= a.next ==> b.order <= a.order)
  }

  /** Total-order agreement: whatever parts of one world two nodes hold, the
      one that resolved fewer rounds emitted a prefix of what the other did. */
  lemma {:induction false} OrdersAgree(w: World, one: Units, two: Units, p: Progress)
    requires w.Sound() && w.Holds(one) && w.Holds(two)
    ensures Comparable(Run(w.rules, one, p), Run(w.rules, two, p))
    decreases UnitsFrom(one, p.next)
  {
    if Head(w.rules, one, p.next).None? {
      assert Run(w.rules, one, p) == p;
      if Head(w.rules, two, p.next).Some? {
        RunAdvances(w.rules, two, p);
      }
    } else if Head(w.rules, two, p.next).None? {
      assert Run(w.rules, two, p) == p;
      RunAdvances(w.rules, one, p);
    } else {
      var head := Head(w.rules, one, p.next).value;
      assert head in UnitsFrom(one, p.next) && head !in UnitsFrom(one, p.next + 1);
      HeadsAgree(w, one, two, p.next, head, Head(w.rules, two, p.next).value);
      EmitViewFree(w, one, w.units, p, head);
      EmitViewFree(w, two, w.units, p, head);
      OrdersAgree(w, one, two, Emit(one, p, head));
    }
  }
}

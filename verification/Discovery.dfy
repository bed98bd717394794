/** The order within a batch: reversed breadth-first discovery, which a head and
    the set emitted before it determine. */
module Discovery {
  import opened Ordered
  import opened Dag
  import opened Ordering

  ghost predicate ParentOf(us: Units, p: UnitHash, h: UnitHash) {
    h in us && exists c :: c in us[h].parents && us[h].parents[c] == p
  }

  /** `full[j]` is a parent of `full[finders[j]]` and of nothing before that. */
  ghost predicate FinderAt(us: Units, full: seq<UnitHash>, finders: seq<nat>, j: nat)
    requires 0 < j < |full| == |finders|
  {
    && finders[j] < j && ParentOf(us, full[j], full[finders[j]])
    && forall e :: 0 <= e < finders[j] ==> !ParentOf(us, full[j], full[e])
  }

  /** Found earlier, or from the same unit with the lower creator. */
  ghost predicate FoundBefore(us: Units, full: seq<UnitHash>, finders: seq<nat>, j: nat, k: nat)
    requires j < |full| == |finders| && k < |full|
  {
    finders[j] < finders[k] ||
    (finders[j] == finders[k] && full[j] in us && full[k] in us && us[full[j]].creator < us[full[k]].creator)
  }

  /** `full` is in the order of breadth-first discovery. */
  ghost predicate Discovered(us: Units, full: seq<UnitHash>, finders: seq<nat>) {
    && |full| == |finders|
    && (forall j :: 0 < j < |full| ==> FinderAt(us, full, finders, j))
    && (forall j, k :: 0 < j < k < |full| ==> FoundBefore(us, full, finders, j, k))
  }

  // ----- parents are walked by creator -----

  ghost predicate Rises(us: Units, s: seq<UnitHash>) {
    forall i, j :: 0 <= i < j < |s| ==> RisesAt(us, s, i, j)
  }

  ghost predicate RisesAt(us: Units, s: seq<UnitHash>, i: nat, j: nat)
    requires i < |s| && j < |s|
  {
    s[i] in us && s[j] in us && us[s[i]].creator < us[s[j]].creator
  }

  lemma {:induction false} EntriesAre(parents: map<NodeId, UnitHash>, creators: seq<NodeId>)
    requires forall c :: c in creators ==> c in parents
    ensures |EntriesOf(parents, creators)| == |creators|
    ensures forall i :: 0 <= i < |creators| ==>
      creators[i] in parents && EntriesOf(parents, creators)[i] == parents[creators[i]]
    decreases |creators|
  {
    if creators != [] {
      EntriesAre(parents, creators[1..]);
    }
  }

  lemma ParentWalkRises(us: Units, h: UnitHash)
    requires Rooted(us) && h in us
    ensures Rises(us, ParentWalk(us[h]))
  {
    var parents := us[h].parents;
    var creators := Ascending(parents.Keys);
    AscendingRises(parents.Keys);
    EntriesAre(parents, creators);
    forall i, j | 0 <= i < j < |creators| ensures RisesAt(us, ParentWalk(us[h]), i, j) {
      assert creators[i] in creators && creators[j] in creators;
      assert Linked(us, h, creators[i]) && Linked(us, h, creators[j]);
    }
  }

  lemma {:induction false} DiscoverRises(us: Units, walk: seq<UnitHash>, seen: set<UnitHash>)
    requires Rises(us, walk)
    ensures Rises(us, Discover(walk, seen))
    decreases |walk|
  {
    if walk != [] {
      forall i, j | 0 <= i < j < |walk[1..]| ensures RisesAt(us, walk[1..], i, j) {
        assert RisesAt(us, walk, i + 1, j + 1);
      }
      var marked := if walk[0] in seen then seen else seen + {walk[0]};
      DiscoverRises(us, walk[1..], marked);
      var rest := Discover(walk[1..], marked);
      if walk[0] !in seen {
        forall i, j | 0 <= i < j < |[walk[0]] + rest| ensures RisesAt(us, [walk[0]] + rest, i, j) {
          if i > 0 {
            assert RisesAt(us, rest, i - 1, j - 1);
          } else {
            assert rest[j - 1] in rest;
            var at :| 0 <= at < |walk[1..]| && walk[1..][at] == rest[j - 1];
            assert RisesAt(us, walk, 0, at + 1);
          }
        }
      }
    }
  }

  // ----- the sweep discovers breadth first -----

  function Repeat(k: nat, n: nat): (s: seq<nat>)
    ensures |s| == n && forall i :: 0 <= i < n ==> s[i] == k
  {
    seq(n, _ => k)
  }

  /** Where the sweep stands: what is on the trail was found from what is done. */
  ghost predicate Finding(us: Units, trail: seq<UnitHash>, finders: seq<nat>, k: nat) {
    Discovered(us, trail, finders) && forall j :: 0 < j < |trail| ==> finders[j] < k
  }

  lemma FindsFresh(us: Units, base: set<UnitHash>, head: UnitHash, trail: seq<UnitHash>, finders: seq<nat>, k: nat)
    requires Rooted(us) && OnTrail(us, base, head, trail, k) && k < |trail| && trail[k] in us
    requires Finding(us, trail, finders, k)
    ensures var found := Fresh(us, base, trail, k);
      Finding(us, trail + found, finders + Repeat(k, |found|), k + 1)
  {
    var found := Fresh(us, base, trail, k);
    var longer, more := trail + found, finders + Repeat(k, |found|);
    forall j | 0 < j < |longer| ensures FinderAt(us, longer, more, j) {
      if j < |trail| {
        assert FinderAt(us, trail, finders, j);
      } else {
        FreshFinder(us, base, head, trail, k, found[j - |trail|]);
      }
    }
    ParentWalkRises(us, trail[k]);
    DiscoverRises(us, ParentWalk(us[trail[k]]), base + Elements(trail));
    forall j, l | 0 < j < l < |longer| ensures FoundBefore(us, longer, more, j, l) {
      if l < |trail| {
        assert FoundBefore(us, trail, finders, j, l);
      } else if j >= |trail| {
        assert RisesAt(us, found, j - |trail|, l - |trail|);
      }
    }
  }

  /** A fresh unit is a parent of the one just taken, and of none before it. */
  lemma FreshFinder(us: Units, base: set<UnitHash>, head: UnitHash, trail: seq<UnitHash>, k: nat, x: UnitHash)
    requires Rooted(us) && OnTrail(us, base, head, trail, k) && k < |trail| && trail[k] in us
    requires x in Fresh(us, base, trail, k)
    ensures ParentOf(us, x, trail[k]) && forall e :: 0 <= e < k ==> !ParentOf(us, x, trail[e])
  {
    forall e | 0 <= e < k ensures !ParentOf(us, x, trail[e]) {
      assert Covered(us, base, trail, trail[e]);
    }
  }

  lemma {:induction false} SweepDiscovers(us: Units, base: set<UnitHash>, head: UnitHash, trail: seq<UnitHash>,
                                          finders: seq<nat>, k: nat) returns (all: seq<nat>)
    requires Rooted(us) && OnTrail(us, base, head, trail, k) && Finding(us, trail, finders, k)
    ensures Discovered(us, Sweep(us, base, trail, k), all)
    ensures Sweep(us, base, trail, k) != [] && Sweep(us, base, trail, k)[0] == head
    decreases Unmarked(us, base, trail), |trail| - k
  {
    if k == |trail| {
      return finders;
    }
    StepOnTrail(us, base, head, trail, k);
    MarksShrink(us, base, trail, k);
    FindsFresh(us, base, head, trail, finders, k);
    var found := Fresh(us, base, trail, k);
    all := SweepDiscovers(us, base, head, trail + found, finders + Repeat(k, |found|), k + 1);
  }

  /** Read backwards, a batch is its head followed by what a breadth-first walk
      over the parents, finders creator, discovers in turn. */
  lemma BatchDiscovery(us: Units, base: set<UnitHash>, head: UnitHash) returns (finders: seq<nat>)
    requires Rooted(us) && head in us && head !in base
    ensures var full := Reversed(Batch(us, base, head));
      full != [] && full[0] == head && Discovered(us, full, finders)
  {
    assert Ancestor(us, head, head);
    finders := SweepDiscovers(us, base, head, [head], [0], 0);
    var full := Sweep(us, base, [head], 0);
    assert Reversed(Reversed(full)) == full;
  }

  // ----- which leaves no choice -----

  /** The order of discovery is determined by what is discovered. */
  lemma {:induction false} DiscoveryDetermined(us: Units, a: seq<UnitHash>, inA: seq<nat>, b: seq<UnitHash>,
                                               inB: seq<nat>, n: nat)
    requires Discovered(us, a, inA) && Discovered(us, b, inB) && Distinct(a) && Distinct(b)
    requires a != [] && b != [] && a[0] == b[0] && |a| == |b| && forall x :: x in a <==> x in b
    requires n <= |a|
    ensures a[..n] == b[..n]
    decreases n
  {
    if n > 0 {
      DiscoveryDetermined(us, a, inA, b, inB, n - 1);
      if n > 1 {
        NextDetermined(us, a, inA, b, inB, n - 1);
      }
      assert a[..n] == a[..n - 1] + [a[n - 1]] && b[..n] == b[..n - 1] + [b[n - 1]];
    }
  }

  lemma NextDetermined(us: Units, a: seq<UnitHash>, inA: seq<nat>, b: seq<UnitHash>, inB: seq<nat>, n: nat)
    requires Discovered(us, a, inA) && Discovered(us, b, inB) && Distinct(a) && Distinct(b)
    requires |a| == |b| && (forall x :: x in a <==> x in b) && 0 < n < |a| && a[..n] == b[..n]
    ensures a[n] == b[n]
  {
    var m := LaterPlace(a, b, n);
    var l := LaterPlace(b, a, n);
    SameFinder(us, a, inA, b, inB, n, m);
    SameFinder(us, b, inB, a, inA, n, l);
    OneInPlace(us, a, inA, b, inB, n, m, l);
  }

  lemma OneInPlace(us: Units, a: seq<UnitHash>, inA: seq<nat>, b: seq<UnitHash>, inB: seq<nat>, n: nat, m: nat, l: nat)
    requires Discovered(us, a, inA) && Discovered(us, b, inB) && 0 < n <= l < |a| && n <= m < |b|
    requires b[m] == a[n] && a[l] == b[n] && inA[n] == inB[m] && inB[n] == inA[l]
    ensures m == n || l == n
  {
    assert n < l ==> FoundBefore(us, a, inA, n, l);
    assert n < m ==> FoundBefore(us, b, inB, n, m);
  }

  /** Beyond a common prefix, `a[n]` stands at or after its place in `b`. */
  lemma LaterPlace(a: seq<UnitHash>, b: seq<UnitHash>, n: nat) returns (m: nat)
    requires Distinct(a) && n < |a| && n <= |b| && a[..n] == b[..n] && a[n] in b
    ensures n <= m < |b| && b[m] == a[n]
  {
    m :| 0 <= m < |b| && b[m] == a[n];
    PrefixAgrees(a, b, n);
  }

  lemma PrefixAgrees(a: seq<UnitHash>, b: seq<UnitHash>, n: nat)
    requires n <= |a| && n <= |b| && a[..n] == b[..n]
    ensures forall e :: 0 <= e < n ==> a[e] == b[e]
  {
    forall e | 0 <= e < n ensures a[e] == b[e] {
      assert a[..n][e] == b[..n][e];
    }
  }

  lemma SameFinder(us: Units, a: seq<UnitHash>, inA: seq<nat>, b: seq<UnitHash>, inB: seq<nat>, n: nat, m: nat)
    requires Discovered(us, a, inA) && Discovered(us, b, inB)
    requires 0 < n <= m < |b| && n < |a| && a[..n] == b[..n] && b[m] == a[n]
    ensures inA[n] == inB[m]
  {
    assert FinderAt(us, a, inA, n) && FinderAt(us, b, inB, m);
    PrefixAgrees(a, b, n);
  }
}

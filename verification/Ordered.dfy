/** Ascending walks over finite sets of naturals, the iteration order of the
    program's ordered maps and sets, and the few counting facts the quorum
    arguments rest on. */
module Ordered {

  datatype Option<+T> = None | Some(value: T) {
    predicate IsFailure() { None? }

    function PropagateFailure<U>(): Option<U>
      requires None?
    {
      None
    }

    function Extract(): T
      requires Some?
    {
      value
    }
  }

  lemma LeastExists(s: set<nat>)
    requires s != {}
    ensures exists m :: m in s && forall x :: x in s ==> m <= x
  {
    var y :| y in s;
    var rest := s - {y};
    if rest == {} {
      assert s == {y};
    } else {
      LeastExists(rest);
      var m :| m in rest && forall x :: x in rest ==> m <= x;
      var least := if y < m then y else m;
      assert forall x :: x in s ==> x == y || x in rest;
      assert least in s && forall x :: x in s ==> least <= x;
    }
  }

  function Least(s: set<nat>): (m: nat)
    requires s != {}
    ensures m in s && forall x :: x in s ==> m <= x
  {
    LeastExists(s);
    var m :| m in s && forall x :: x in s ==> m <= x;
    m
  }

  /** The elements of `s`, lowest first. */
  function Ascending(s: set<nat>): (r: seq<nat>)
    ensures |r| == |s|
    ensures forall x :: x in r <==> x in s
  {
    if s == {} then [] else
      var m := Least(s);
      var tail := Ascending(s - {m});
      assert forall x :: x in s <==> x == m || x in s - {m};
      [m] + tail
  }

  lemma {:induction false} AscendingRises(s: set<nat>)
    ensures forall i, j :: 0 <= i < j < |Ascending(s)| ==> Ascending(s)[i] < Ascending(s)[j]
  {
    if s != {} {
      var rest := s - {Least(s)};
      var tail := Ascending(rest);
      AscendingRises(rest);
      assert Ascending(s) == [Least(s)] + tail;
      forall i, j | 0 <= i < j < |tail| + 1 ensures ([Least(s)] + tail)[i] < ([Least(s)] + tail)[j] {
        assert tail[j - 1] in tail;
      }
    }
  }

  lemma SubsetSize<T>(a: set<T>, b: set<T>)
    requires a <= b
    ensures |a| <= |b|
    ensures |a| == |b| ==> a == b
  {
    assert b == a + (b - a);
  }

  /** The numbers below `n`: the node ids of a mint of `n` nodes. */
  function Below(n: nat): (s: set<nat>)
    ensures forall i :: i in s <==> 0 <= i < n
    ensures |s| == n
  {
    if n == 0 then {} else Below(n - 1) + {n - 1}
  }

  /** Any two quorums of a mint of `3f + 1` share a node outside any `f` of them. */
  lemma QuorumsMeet(f: nat, a: set<nat>, b: set<nat>, byzantine: set<nat>) returns (i: nat)
    requires a <= Below(3 * f + 1) && b <= Below(3 * f + 1)
    requires |a| >= 2 * f + 1 && |b| >= 2 * f + 1 && |byzantine| <= f
    ensures i in a && i in b && i !in byzantine
  {
    SubsetSize(a + b, Below(3 * f + 1));
    if a * b <= byzantine {
      SubsetSize(a * b, byzantine);
      assert false;
    }
    i :| i in a * b && i !in byzantine;
  }
}

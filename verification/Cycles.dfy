/** Walks in a finite relation: where every element has a successor there is a cycle. */
module Cycles {
  import opened Lists

  ghost predicate Walk(r: (string, string) -> bool, p: seq<string>) {
    forall i, j :: 0 <= i < |p| && 0 <= j < |p| && j == i + 1 ==> r(p[i], p[j])
  }

  /** A walk of at least one step that ends where it began. */
  ghost predicate Cycle(r: (string, string) -> bool, p: seq<string>) {
    |p| >= 2 && p[0] == p[|p| - 1] && Walk(r, p)
  }

  ghost predicate Acyclic(r: (string, string) -> bool) {
    forall p :: !Cycle(r, p)
  }

  ghost predicate Within(p: seq<string>, s: set<string>) { forall i :: 0 <= i < |p| ==> p[i] in s }

  lemma {:induction false} DistinctFits(p: seq<string>, s: set<string>)
    requires Within(p, s) && NoRepeats(p)
    ensures |p| <= |s|
  {
    if p != [] {
      var rest := p[..|p| - 1];
      DistinctFits(rest, s - {p[|p| - 1]});
    }
  }

  ghost predicate HasSuccessor(r: (string, string) -> bool, s: set<string>, x: string) {
    exists y :: y in s && r(x, y)
  }

  ghost predicate NoDeadEnd(r: (string, string) -> bool, s: set<string>) {
    forall x {:trigger HasSuccessor(r, s, x)} :: x in s ==> HasSuccessor(r, s, x)
  }

  /** Walks of every length stay inside a set in which every element has a successor. */
  lemma {:induction false} LongWalk(r: (string, string) -> bool, s: set<string>, n: nat) returns (p: seq<string>)
    requires s != {} && NoDeadEnd(r, s)
    ensures |p| == n + 1 && Walk(r, p) && Within(p, s)
  {
    if n == 0 {
      var x :| x in s;
      p := [x];
    } else {
      var q := LongWalk(r, s, n - 1);
      assert HasSuccessor(r, s, q[|q| - 1]);
      var y :| y in s && r(q[|q| - 1], y);
      p := q + [y];
    }
  }

  lemma {:induction false} EndlessMeansCycle(r: (string, string) -> bool, s: set<string>)
    requires s != {} && NoDeadEnd(r, s)
    ensures !Acyclic(r)
  {
    var p := LongWalk(r, s, |s|);
    if NoRepeats(p) { DistinctFits(p, s); assert false; }
    var i, j :| 0 <= i < j < |p| && p[i] == p[j];
    WalkSlice(r, p, i, j + 1);
    assert Cycle(r, p[i..j + 1]);
  }

  lemma {:induction false} WalkSlice(r: (string, string) -> bool, p: seq<string>, i: nat, j: nat)
    requires Walk(r, p) && i <= j <= |p|
    ensures Walk(r, p[i..j])
  {
    var c := p[i..j];
    forall k, l | 0 <= k < |c| && 0 <= l < |c| && l == k + 1 ensures r(c[k], c[l]) {
      assert r(p[i + k], p[i + l]);
    }
  }

  function Reversed(p: seq<string>): (q: seq<string>)
    ensures |q| == |p| && forall i :: 0 <= i < |p| ==> q[i] == p[|p| - 1 - i]
  {
    seq(|p|, i requires 0 <= i < |p| => p[|p| - 1 - i])
  }

  /** A cycle read backwards is a cycle of the converse. */
  lemma {:induction false} ConverseAcyclic(r: (string, string) -> bool, c: (string, string) -> bool)
    requires Acyclic(r) && forall x, y :: c(x, y) ==> r(y, x)
    ensures Acyclic(c)
  {
    forall p ensures !Cycle(c, p) {
      if Cycle(c, p) {
        var q := Reversed(p);
        assert Walk(r, q) by {
          forall i, j | 0 <= i < |q| && 0 <= j < |q| && j == i + 1 ensures r(q[i], q[j]) {
            assert c(p[|p| - 1 - j], p[|p| - 1 - i]);
          }
        }
        assert Cycle(r, q);
      }
    }
  }

  /** A relation whose pairs all point strictly backwards in a list of distinct elements is acyclic. */
  lemma {:induction false} RankedAcyclic(r: (string, string) -> bool, order: seq<string>)
    requires NoRepeats(order)
    requires forall x, y :: r(x, y) ==> exists i, j :: 0 <= j < i < |order| && order[i] == x && order[j] == y
    ensures Acyclic(r)
  {
    forall p ensures !Cycle(r, p) {
      if Cycle(r, p) {
        assert r(p[0], p[1]);
        var i :| 0 <= i < |order| && order[i] == p[0];
        RankFalls(r, order, p, |p| - 1, i);
        assert false;
      }
    }
  }

  lemma {:induction false} RankFalls(r: (string, string) -> bool, order: seq<string>, p: seq<string>, n: nat, i: nat)
    requires NoRepeats(order) && Walk(r, p) && n < |p| && i < |order| && order[i] == p[0]
    requires forall x, y :: r(x, y) ==> exists i, j :: 0 <= j < i < |order| && order[i] == x && order[j] == y
    ensures exists j :: 0 <= j <= i - n && order[j] == p[n]
  {
    if n > 0 {
      RankFalls(r, order, p, n - 1, i);
      var k :| 0 <= k <= i - (n - 1) && order[k] == p[n - 1];
      assert r(p[n - 1], p[n]);
      var a, b :| 0 <= b < a < |order| && order[a] == p[n - 1] && order[b] == p[n];
      assert a == k;
    }
  }
}

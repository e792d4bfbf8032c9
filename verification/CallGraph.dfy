/** Functions, the calls between them, and which reach which. */
module CallGraphs {

  /** Every function and the functions it calls, in the order of its call table. */
  type Graph = map<int, seq<int>>

  predicate Edge(g: Graph, x: int, y: int) {
    x in g && y in g[x]
  }

  /** Calls to functions that are not in the profile have been removed. */
  ghost predicate Closed(g: Graph) {
    forall x, y | Edge(g, x, y) :: y in g
  }

  ghost predicate IsPath(g: Graph, p: seq<int>) {
    |p| > 0 && forall i | 0 <= i < |p| - 1 :: Edge(g, p[i], p[i + 1])
  }

  ghost predicate Reaches(g: Graph, x: int, y: int) {
    exists p :: IsPath(g, p) && p[0] == x && p[|p| - 1] == y
  }

  /** Each reaches the other through calls. */
  ghost predicate Mutual(g: Graph, x: int, y: int) {
    Reaches(g, x, y) && Reaches(g, y, x)
  }

  lemma ReachesSelf(g: Graph, x: int)
    ensures Reaches(g, x, x)
  {
    assert IsPath(g, [x]);
  }

  lemma ReachesEdge(g: Graph, x: int, y: int)
    requires Edge(g, x, y)
    ensures Reaches(g, x, y)
  {
    assert IsPath(g, [x, y]);
  }

  lemma ReachesTrans(g: Graph, x: int, y: int, z: int)
    requires Reaches(g, x, y) && Reaches(g, y, z)
    ensures Reaches(g, x, z)
  {
    var p :| IsPath(g, p) && p[0] == x && p[|p| - 1] == y;
    var q :| IsPath(g, q) && q[0] == y && q[|q| - 1] == z;
    var r := p + q[1..];
    forall i | 0 <= i < |r| - 1 ensures Edge(g, r[i], r[i + 1]) {
      if i >= |p| - 1 {
        assert r[i] == q[i - (|p| - 1)] && r[i + 1] == q[i + 1 - (|p| - 1)];
      }
    }
    assert IsPath(g, r);
  }

  ghost predicate ClosedSet(g: Graph, s: set<int>) {
    forall x, y | x in s && Edge(g, x, y) :: y in s
  }

  /** A set that no call leaves holds everything its members reach. */
  lemma ClosedReach(g: Graph, s: set<int>, x: int, y: int)
    requires ClosedSet(g, s) && x in s && Reaches(g, x, y)
    ensures y in s
  {
    var p :| IsPath(g, p) && p[0] == x && p[|p| - 1] == y;
    PathStays(g, s, p, |p| - 1);
  }

  lemma {:induction false} PathStays(g: Graph, s: set<int>, p: seq<int>, i: nat)
    requires ClosedSet(g, s) && IsPath(g, p) && p[0] in s && i < |p|
    ensures p[i] in s
  {
    if i > 0 {
      PathStays(g, s, p, i - 1);
    }
  }

  /** The functions of a strongly connected component: those that x reaches and that reach it. */
  ghost predicate IsComponent(g: Graph, c: set<int>) {
    c != {} && forall x, y | x in c :: y in c <==> Mutual(g, x, y)
  }
}

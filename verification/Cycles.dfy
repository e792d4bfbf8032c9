/** Finding the cycles of a profile: one search from every function that no earlier search has visited. */
module Cycles {
  import opened CallGraphs

  // ---------- the state of a search ----------

  /** What one search knows: the stack, the order in which functions were first seen, and (ghost) those still being explored. */
  datatype Search = Search(stack: seq<int>, orders: map<int, nat>, gray: set<int>)

  ghost predicate Sorted(s: Search) {
    && (forall i | 0 <= i < |s.stack| :: s.stack[i] in s.orders)
    && (forall i, j | 0 <= i < j < |s.stack| && s.stack[i] in s.orders && s.stack[j] in s.orders :: s.orders[s.stack[i]] < s.orders[s.stack[j]])
    && (forall x, y | x in s.orders && y in s.orders && s.orders[x] == s.orders[y] :: x == y)
    && (forall x | x in s.gray :: x in s.stack)
  }

  /** Seen, and no longer on the stack: the components found by this search. */
  ghost function Done(s: Search): set<int> {
    set x | x in s.orders && x !in s.stack
  }

  /** From y control comes back to a function that is still being explored and was seen no later. */
  ghost predicate LeadsBack(g: Graph, s: Search, y: int) {
    exists x :: x in s.gray && x in s.orders && y in s.orders && s.orders[x] <= s.orders[y] && Reaches(g, y, x)
  }

  /** What has been explored calls nothing that has not been seen. */
  ghost predicate NothingMissed(g: Graph, s: Search) {
    && (forall x | x in s.orders :: x in g)
    && (forall x, y | x in s.orders && x !in s.gray && Edge(g, x, y) :: y in s.orders)
  }

  /** Lower on the stack reaches higher. */
  ghost predicate ReachesUp(g: Graph, s: Search) {
    forall i, j | 0 <= i <= j < |s.stack| :: Reaches(g, s.stack[i], s.stack[j])
  }

  ghost predicate AllLeadBack(g: Graph, s: Search) {
    forall y | y in s.stack :: LeadsBack(g, s, y)
  }

  ghost predicate SearchOk(g: Graph, s: Search) {
    Sorted(s) && NothingMissed(g, s) && ReachesUp(g, s) && AllLeadBack(g, s) && ClosedSet(g, Done(s))
  }

  lemma Parts(g: Graph, s: Search)
    ensures SearchOk(g, s) <==> Sorted(s) && NothingMissed(g, s) && ReachesUp(g, s) && AllLeadBack(g, s) && ClosedSet(g, Done(s))
  {
  }

  /** Every call from the stack's part above n down to below it goes to something seen no earlier than low. */
  ghost predicate CrossingsFrom(g: Graph, s: Search, n: nat, k: nat, low: nat) {
    forall i, j | n <= i < |s.stack| && 0 <= j < k && j < |s.stack| && Edge(g, s.stack[i], s.stack[j]) ::
      s.stack[j] in s.orders && low <= s.orders[s.stack[j]]
  }

  /** low is the order of something on the stack that f reaches. */
  ghost predicate LowIs(g: Graph, s: Search, f: int, low: nat) {
    exists y :: y in s.stack && y in s.orders && s.orders[y] == low && Reaches(g, f, y)
  }

  /** The later search has seen more, has the old stack as the bottom of its own and explores the same. */
  ghost predicate Extends(s: Search, s': Search) {
    && |s.stack| <= |s'.stack| && s'.stack[..|s.stack|] == s.stack && s'.gray == s.gray
    && (forall x | x in s.orders :: x in s'.orders && s'.orders[x] == s.orders[x])
  }

  lemma ExtendsSeen(s: Search, t: Search, x: int)
    requires Extends(s, t) && x in s.orders
    ensures x in t.orders && t.orders[x] == s.orders[x]
  {
  }

  lemma ExtendsTrans(a: Search, b: Search, c: Search)
    requires Extends(a, b) && Extends(b, c)
    ensures Extends(a, c)
  {
    assert c.stack[..|a.stack|] == c.stack[..|b.stack|][..|a.stack|];
  }

  // ---------- entering a function ----------

  function Enter(s: Search, f: int, order: nat): Search {
    Search(s.stack + [f], s.orders[f := order], s.gray + {f})
  }

  lemma EnterOk(g: Graph, s: Search, f: int, order: nat)
    requires SearchOk(g, s) && f in g && f !in s.orders && (forall x | x in s.orders :: s.orders[x] < order)
    requires forall x | x in s.gray :: Reaches(g, x, f)
    ensures SearchOk(g, Enter(s, f, order)) && Done(Enter(s, f, order)) == Done(s)
  {
    hide Reaches, Edge;
    var t := Enter(s, f, order);
    EnterSorted(s, f, order);
    EnterReachesUp(g, s, f, order);
    EnterLeadsBack(g, s, f, order);
    hide Sorted, ReachesUp, AllLeadBack, ClosedSet, Done;
  }

  lemma EnterSorted(s: Search, f: int, order: nat)
    requires Sorted(s) && f !in s.orders && (forall x | x in s.orders :: s.orders[x] < order)
    ensures Sorted(Enter(s, f, order)) && Done(Enter(s, f, order)) == Done(s)
  {
    var t := Enter(s, f, order);
    assert forall x | x in s.stack :: x in s.orders;
    forall i, j | 0 <= i < j < |t.stack| ensures t.orders[t.stack[i]] < t.orders[t.stack[j]] {
      assert t.stack[i] == s.stack[i] && s.stack[i] in s.orders;
      if j < |s.stack| {
        assert s.orders[s.stack[i]] < s.orders[s.stack[j]];
      }
    }
    forall x ensures x in Done(t) <==> x in Done(s) {
      assert x in s.stack + [f] <==> x in s.stack || x == f;
    }
  }

  lemma EnterReachesUp(g: Graph, s: Search, f: int, order: nat)
    requires ReachesUp(g, s) && AllLeadBack(g, s) && forall x | x in s.gray :: Reaches(g, x, f)
    ensures ReachesUp(g, Enter(s, f, order))
  {
    hide Reaches;
    var t := Enter(s, f, order);
    forall i, j | 0 <= i <= j < |t.stack| ensures Reaches(g, t.stack[i], t.stack[j]) {
      if j == |s.stack| {
        if i == j {
          ReachesSelf(g, f);
        } else {
          assert LeadsBack(g, s, s.stack[i]);
          var x :| x in s.gray && x in s.orders && s.orders[x] <= s.orders[s.stack[i]] && Reaches(g, s.stack[i], x);
          ReachesTrans(g, s.stack[i], x, f);
        }
      }
    }
  }

  lemma EnterLeadsBack(g: Graph, s: Search, f: int, order: nat)
    requires AllLeadBack(g, s) && f !in s.orders
    ensures AllLeadBack(g, Enter(s, f, order))
  {
    hide Reaches;
    var t := Enter(s, f, order);
    forall y | y in t.stack ensures LeadsBack(g, t, y) {
      if y == f {
        ReachesSelf(g, f);
        assert f in t.gray;
      } else {
        assert LeadsBack(g, s, y);
        var x :| x in s.gray && x in s.orders && s.orders[x] <= s.orders[y] && Reaches(g, y, x);
        assert x in t.gray && t.orders[x] <= t.orders[y];
      }
    }
  }

  // ---------- leaving a function ----------

  /** The loop over the calls of f is over: f sits at position n of the stack, and its calls are all seen. */
  ghost predicate Explored(g: Graph, s: Search, f: int, n: nat, low: nat) {
    && SearchOk(g, s) && n < |s.stack| && s.stack[n] == f && f in s.gray && f in s.orders
    && (forall i | n < i < |s.stack| :: s.stack[i] !in s.gray)
    && (forall y | Edge(g, f, y) :: y in s.orders)
    && CrossingsFrom(g, s, n, n, low) && LowIs(g, s, f, low) && low <= s.orders[f]
  }

  lemma ExploredParts(g: Graph, s: Search, f: int, n: nat, low: nat)
    requires Explored(g, s, f, n, low)
    ensures SearchOk(g, s) && n < |s.stack| && s.stack[n] == f && f in s.orders && LowIs(g, s, f, low)
    ensures forall y | Edge(g, f, y) :: y in s.orders
  {
  }

  /** f is left on the stack: it leads back to something seen before it. */
  lemma LeaveOk(g: Graph, s: Search, f: int, n: nat, low: nat)
    requires Explored(g, s, f, n, low) && low < s.orders[f]
    ensures SearchOk(g, s.(gray := s.gray - {f}))
  {
    hide *;
    var t := s.(gray := s.gray - {f});
    ExploredParts(g, s, f, n, low);
    Parts(g, s);
    LeaveSorted(s, f);
    LeaveLeadsBack(g, s, f, low);
    LeaveNothingMissed(g, s, f);
    LeaveReachesUp(g, s, f);
    Parts(g, t);
  }

  lemma LeaveSorted(s: Search, f: int)
    requires Sorted(s)
    ensures Sorted(s.(gray := s.gray - {f})) && Done(s.(gray := s.gray - {f})) == Done(s)
  {
  }

  lemma LeaveReachesUp(g: Graph, s: Search, f: int)
    requires ReachesUp(g, s)
    ensures ReachesUp(g, s.(gray := s.gray - {f}))
  {
    hide Reaches;
  }

  lemma LeaveNothingMissed(g: Graph, s: Search, f: int)
    requires NothingMissed(g, s) && forall y | Edge(g, f, y) :: y in s.orders
    ensures NothingMissed(g, s.(gray := s.gray - {f}))
  {
  }

  lemma LeaveLeadsBack(g: Graph, s: Search, f: int, low: nat)
    requires AllLeadBack(g, s) && LowIs(g, s, f, low) && f in s.orders && low < s.orders[f]
    ensures AllLeadBack(g, s.(gray := s.gray - {f}))
  {
    hide Reaches;
    var t := s.(gray := s.gray - {f});
    var y0 :| y0 in s.stack && y0 in s.orders && s.orders[y0] == low && Reaches(g, f, y0);
    assert LeadsBack(g, s, y0);
    var x0 :| x0 in s.gray && x0 in s.orders && s.orders[x0] <= s.orders[y0] && Reaches(g, y0, x0);
    ReachesTrans(g, f, y0, x0);
    assert x0 in t.gray;
    forall y | y in t.stack ensures LeadsBack(g, t, y) {
      assert LeadsBack(g, s, y);
      var x :| x in s.gray && x in s.orders && s.orders[x] <= s.orders[y] && Reaches(g, y, x);
      if x == f {
        ReachesTrans(g, y, f, x0);
      } else {
        assert x in t.gray;
      }
    }
  }

  ghost function Members(s: Search, n: nat): set<int>
    requires n <= |s.stack|
  {
    set x | x in s.stack[n..]
  }

  function Pop(s: Search, f: int, n: nat): Search
    requires n <= |s.stack|
  {
    Search(s.stack[..n], s.orders, s.gray - {f})
  }

  /** Nothing leads from the part of the stack above n to below it, so that part and what is done are closed. */
  lemma PartClosed(g: Graph, s: Search, f: int, n: nat, low: nat)
    requires Explored(g, s, f, n, low) && low == s.orders[f]
    ensures ClosedSet(g, Done(s) + Members(s, n))
  {
    hide Reaches, LeadsBack, LowIs, ReachesUp;
    forall x, y | x in Done(s) + Members(s, n) && Edge(g, x, y) ensures y in Done(s) + Members(s, n) {
      if x in Members(s, n) {
        CallStays(g, s, f, n, low, x, y);
      }
    }
  }

  /** A call from the part above n goes to that part or to something done. */
  lemma CallStays(g: Graph, s: Search, f: int, n: nat, low: nat, x: int, y: int)
    requires Explored(g, s, f, n, low) && low == s.orders[f] && x in Members(s, n) && Edge(g, x, y)
    ensures y in Done(s) + Members(s, n)
  {
    hide Reaches, LeadsBack, LowIs, ReachesUp, ClosedSet, Edge, Members, AllLeadBack;
    InMembers(s, n, x);
    InMembers(s, n, y);
    var i :| n <= i < |s.stack| && s.stack[i] == x;
    assert x in s.orders && y in s.orders;
    NoCrossing(g, s, f, n, low, i);
  }

  lemma NoCrossing(g: Graph, s: Search, f: int, n: nat, low: nat, i: nat)
    requires Explored(g, s, f, n, low) && low == s.orders[f] && n <= i < |s.stack|
    ensures forall j | 0 <= j < n :: !Edge(g, s.stack[i], s.stack[j])
  {
    hide Reaches, LeadsBack, LowIs, ReachesUp, ClosedSet, Edge, Members, AllLeadBack, NothingMissed;
    forall j | 0 <= j < n ensures !Edge(g, s.stack[i], s.stack[j]) {
      assert s.orders[s.stack[j]] < s.orders[s.stack[n]];
    }
  }

  /** What is popped is a strongly connected component. */
  lemma PartIsComponent(g: Graph, s: Search, f: int, n: nat, low: nat)
    requires Explored(g, s, f, n, low) && low == s.orders[f]
    ensures IsComponent(g, Members(s, n)) && Members(s, n) !! Done(s)
  {
    hide *;
    ExploredParts(g, s, f, n, low);
    var c := Members(s, n);
    PartClosed(g, s, f, n, low);
    PartApart(g, s, f, n, low);
    forall y | y in c ensures Reaches(g, f, y) && Reaches(g, y, f) {
      PartReaches(g, s, f, n, low, y);
    }
    ClosedMutual(g, Done(s), c, f);
  }

  /** If what is done is closed, and so is what is done together with c, and f and the members of c reach each other, c is a component. */
  lemma ClosedMutual(g: Graph, d: set<int>, c: set<int>, f: int)
    requires ClosedSet(g, d) && ClosedSet(g, d + c) && f in c && c !! d
    requires forall y | y in c :: Reaches(g, f, y) && Reaches(g, y, f)
    ensures IsComponent(g, c)
  {
    hide Reaches, ClosedSet;
    forall x, y | x in c ensures y in c <==> Mutual(g, x, y) {
      if y in c {
        ReachesTrans(g, x, f, y);
        ReachesTrans(g, y, f, x);
      }
      if Mutual(g, x, y) {
        ClosedReach(g, d + c, x, y);
        if y in d {
          ClosedReach(g, d, y, x);
        }
      }
    }
  }

  lemma PartApart(g: Graph, s: Search, f: int, n: nat, low: nat)
    requires Explored(g, s, f, n, low)
    ensures f in Members(s, n) && Members(s, n) !! Done(s) && ClosedSet(g, Done(s))
  {
    hide Reaches, LeadsBack, LowIs, ReachesUp, ClosedSet, Edge, AllLeadBack;
    assert s.stack[n..][0] == f;
  }

  lemma PartReaches(g: Graph, s: Search, f: int, n: nat, low: nat, y: int)
    requires Explored(g, s, f, n, low) && low == s.orders[f] && y in Members(s, n)
    ensures Reaches(g, f, y) && Reaches(g, y, f)
  {
    hide *;
    ExploredParts(g, s, f, n, low);
    Parts(g, s);
    PartClosed(g, s, f, n, low);
    InMembers(s, n, y);
    var i :| n <= i < |s.stack| && s.stack[i] == y;
    var x := BackFrom(g, s, n, i);
    ClosedReach(g, Done(s) + Members(s, n), y, x);
    OnlyGray(g, s, f, n, low, x);
  }

  lemma BackFrom(g: Graph, s: Search, n: nat, i: nat) returns (x: int)
    requires ReachesUp(g, s) && AllLeadBack(g, s) && n <= i < |s.stack|
    ensures Reaches(g, s.stack[n], s.stack[i]) && x in s.gray && Reaches(g, s.stack[i], x)
  {
    hide Reaches;
    assert s.stack[i] in s.stack;
    assert LeadsBack(g, s, s.stack[i]);
    x :| x in s.gray && x in s.orders && s.stack[i] in s.orders && s.orders[x] <= s.orders[s.stack[i]] && Reaches(g, s.stack[i], x);
  }

  lemma OnlyGray(g: Graph, s: Search, f: int, n: nat, low: nat, x: int)
    requires Explored(g, s, f, n, low) && x in s.gray && x in Done(s) + Members(s, n)
    ensures x == f
  {
    hide Reaches, ClosedSet, Edge, Members, LowIs, LeadsBack;
    InMembers(s, n, x);
    assert x in s.stack;
  }

  lemma PopOk(g: Graph, s: Search, f: int, n: nat, low: nat)
    requires Explored(g, s, f, n, low) && low == s.orders[f]
    ensures SearchOk(g, Pop(s, f, n)) && Done(Pop(s, f, n)) == Done(s) + Members(s, n)
  {
    hide *;
    ExploredParts(g, s, f, n, low);
    Parts(g, s);
    PartClosed(g, s, f, n, low);
    PopDone(s, f, n);
    PopSorted(g, s, f, n, low);
    PopLeadsBack(g, s, f, n);
    PopRest(g, s, f, n);
    Parts(g, Pop(s, f, n));
  }

  lemma PopRest(g: Graph, s: Search, f: int, n: nat)
    requires NothingMissed(g, s) && ReachesUp(g, s) && n <= |s.stack| && forall y | Edge(g, f, y) :: y in s.orders
    ensures NothingMissed(g, Pop(s, f, n)) && ReachesUp(g, Pop(s, f, n))
  {
    hide Reaches, Edge;
  }

  lemma PopSorted(g: Graph, s: Search, f: int, n: nat, low: nat)
    requires Explored(g, s, f, n, low)
    ensures Sorted(Pop(s, f, n))
  {
    hide Reaches, Edge, ClosedSet, Done, Members, ReachesUp, AllLeadBack, NothingMissed, LowIs, CrossingsFrom;
    var t := Pop(s, f, n);
    forall x | x in t.gray ensures x in t.stack {
      var i :| 0 <= i < |s.stack| && s.stack[i] == x;
      assert i < n;
      assert t.stack[i] == x;
    }
  }

  lemma PopLeadsBack(g: Graph, s: Search, f: int, n: nat)
    requires Sorted(s) && AllLeadBack(g, s) && n < |s.stack| && s.stack[n] == f
    ensures AllLeadBack(g, Pop(s, f, n))
  {
    hide Reaches, LeadsBack, Sorted;
    var t := Pop(s, f, n);
    forall y | y in t.stack ensures LeadsBack(g, t, y) {
      var i :| 0 <= i < n && s.stack[i] == y;
      assert LeadsBack(g, s, y);
      StillLeadsBack(g, s, f, n, i);
    }
  }

  lemma StillLeadsBack(g: Graph, s: Search, f: int, n: nat, i: nat)
    requires Sorted(s) && i < n < |s.stack| && s.stack[n] == f && LeadsBack(g, s, s.stack[i])
    ensures LeadsBack(g, Pop(s, f, n), s.stack[i])
  {
    hide Reaches;
    var y := s.stack[i];
    var x :| x in s.gray && x in s.orders && s.orders[x] <= s.orders[y] && Reaches(g, y, x);
    assert s.orders[s.stack[i]] < s.orders[s.stack[n]];
    assert x in Pop(s, f, n).gray;
  }

  lemma PartsDiffer(s: Search, n: nat)
    requires Sorted(s) && n <= |s.stack|
    ensures forall i, j | 0 <= i < n <= j < |s.stack| :: s.stack[i] != s.stack[j]
  {
    forall i, j | 0 <= i < n <= j < |s.stack| ensures s.stack[i] != s.stack[j] {
      assert s.orders[s.stack[i]] < s.orders[s.stack[j]];
    }
  }

  lemma InMembers(s: Search, n: nat, x: int)
    requires n <= |s.stack|
    ensures x in Members(s, n) <==> exists i :: n <= i < |s.stack| && s.stack[i] == x
  {
    if x in Members(s, n) {
      var j :| 0 <= j < |s.stack[n..]| && s.stack[n..][j] == x;
      assert s.stack[n + j] == x;
    }
    if i :| n <= i < |s.stack| && s.stack[i] == x {
      assert s.stack[n..][i - n] == x;
    }
  }

  lemma PopDone(s: Search, f: int, n: nat)
    requires Sorted(s) && n < |s.stack|
    ensures Done(Pop(s, f, n)) == Done(s) + Members(s, n)
  {
    PartsDiffer(s, n);
    forall x ensures x in Done(Pop(s, f, n)) <==> x in Done(s) + Members(s, n) {
      InMembers(s, n, x);
      assert x in s.stack[..n] <==> exists i :: 0 <= i < n && s.stack[i] == x;
    }
  }

  // ---------- the loop over the calls of a function ----------

  /** f sits at position n of the stack, and its first i calls have been followed. */
  ghost predicate Following(g: Graph, s: Search, f: int, n: nat, i: nat, low: nat)
    requires f in g
  {
    && SearchOk(g, s) && n < |s.stack| && s.stack[n] == f && f in s.gray && f in s.orders && i <= |g[f]|
    && (forall k | n < k < |s.stack| :: s.stack[k] !in s.gray)
    && CrossingsFrom(g, s, n + 1, n, low) && LowIs(g, s, f, low) && low <= s.orders[f]
    && FollowedCalls(g[f], s, n, i, low)
  }

  /** The first i calls have been seen; those that are on the stack below n are not lower than low. */
  ghost predicate FollowedCalls(calls: seq<int>, s: Search, n: nat, i: nat, low: nat) {
    forall j | 0 <= j < i && j < |calls| ::
      calls[j] in s.orders && (forall k | 0 <= k < n && k < |s.stack| && s.stack[k] == calls[j] :: low <= s.orders[calls[j]])
  }

  lemma FollowingStarts(g: Graph, s: Search, f: int, order: nat)
    requires f in g && SearchOk(g, Enter(s, f, order)) && forall x | x in s.gray :: x in s.stack
    ensures Following(g, Enter(s, f, order), f, |s.stack|, 0, order)
  {
    hide SearchOk, Reaches;
    ReachesSelf(g, f);
    var t := Enter(s, f, order);
    assert f in t.stack && t.orders[f] == order;
  }

  lemma FollowingEnds(g: Graph, s: Search, f: int, n: nat, low: nat)
    requires f in g && Following(g, s, f, n, |g[f]|, low)
    ensures Explored(g, s, f, n, low)
  {
    hide SearchOk, Reaches, LowIs;
    forall y | Edge(g, f, y) ensures y in s.orders {
      var j :| 0 <= j < |g[f]| && g[f][j] == y;
    }
    forall i, j | n <= i < |s.stack| && 0 <= j < n && Edge(g, s.stack[i], s.stack[j])
      ensures s.stack[j] in s.orders && low <= s.orders[s.stack[j]]
    {
      if i == n {
        var k :| 0 <= k < |g[f]| && g[f][k] == s.stack[j];
      }
    }
  }

  /** What exploring the function c at the end of a call leaves behind. */
  ghost predicate CallFollowed(g: Graph, s: Search, t: Search, c: int, low: nat) {
    && c in t.orders && c !in s.orders && low <= t.orders[c]
    && (c in t.stack ==> LowIs(g, t, c, low)) && (c !in t.stack ==> low == t.orders[c])
    && CrossingsFrom(g, t, |s.stack|, |s.stack|, low)
    && (forall k | |s.stack| <= k < |t.stack| :: t.stack[k] !in t.gray)
    && (forall x | x in s.orders && x in t.orders :: t.orders[x] < t.orders[c])
    && SearchOk(g, t) && Extends(s, t)
  }

  function Min(a: nat, b: nat): nat {
    if a <= b then a else b
  }

  lemma FollowingRecursion(g: Graph, s: Search, t: Search, f: int, n: nat, i: nat, low: nat, low': nat)
    requires f in g && Following(g, s, f, n, i, low) && i < |g[f]| && CallFollowed(g, s, t, g[f][i], low')
    ensures Following(g, t, f, n, i + 1, Min(low, low'))
  {
    hide *;
    FollowingIs(g, s, f, n, i, low);
    CallIs(g, s, t, g[f][i], low');
    Parts(g, s);
    FollowedMore(g, s, t, f, n, i, low, low');
    CrossingsMore(g, s, t, n, low, low');
    GrayStays(s, t, n, f);
    ExtendsSeen(s, t, f);
    EdgeOf(g, f, i);
    LowMore(g, s, t, f, n, g[f][i], low, low');
    MinIs(low, low');
    FollowingWhen(g, t, f, n, i + 1, Min(low, low'));
  }

  lemma MinIs(a: nat, b: nat)
    ensures Min(a, b) <= a && Min(a, b) <= b
  {
  }

  lemma EdgeOf(g: Graph, f: int, i: nat)
    requires f in g && i < |g[f]|
    ensures Edge(g, f, g[f][i])
  {
  }

  lemma FollowingIs(g: Graph, s: Search, f: int, n: nat, i: nat, low: nat)
    requires f in g && Following(g, s, f, n, i, low)
    ensures SearchOk(g, s) && n < |s.stack| && s.stack[n] == f && f in s.gray && f in s.orders && i <= |g[f]|
    ensures forall k | n < k < |s.stack| :: s.stack[k] !in s.gray
    ensures CrossingsFrom(g, s, n + 1, n, low) && LowIs(g, s, f, low) && low <= s.orders[f] && FollowedCalls(g[f], s, n, i, low)
  {
  }

  lemma FollowingWhen(g: Graph, s: Search, f: int, n: nat, i: nat, low: nat)
    requires f in g && SearchOk(g, s) && n < |s.stack| && s.stack[n] == f && f in s.gray && f in s.orders && i <= |g[f]|
    requires forall k | n < k < |s.stack| :: s.stack[k] !in s.gray
    requires CrossingsFrom(g, s, n + 1, n, low) && LowIs(g, s, f, low) && low <= s.orders[f] && FollowedCalls(g[f], s, n, i, low)
    ensures Following(g, s, f, n, i, low)
  {
  }

  lemma CallIs(g: Graph, s: Search, t: Search, c: int, low: nat)
    requires CallFollowed(g, s, t, c, low)
    ensures c in t.orders && c !in s.orders && (c in t.stack ==> LowIs(g, t, c, low)) && (c !in t.stack ==> low == t.orders[c])
    ensures CrossingsFrom(g, t, |s.stack|, |s.stack|, low) && (forall x | x in s.orders && x in t.orders :: t.orders[x] < t.orders[c])
    ensures (forall k | |s.stack| <= k < |t.stack| :: t.stack[k] !in t.gray) && SearchOk(g, t) && Extends(s, t) && t.gray == s.gray
  {
  }

  /** What is on the stack stays there, and nothing that is being explored comes on top. */
  lemma GrayStays(s: Search, t: Search, n: nat, f: int)
    requires Extends(s, t) && n < |s.stack| && s.stack[n] == f && forall k | n < k < |s.stack| :: s.stack[k] !in s.gray
    requires forall k | |s.stack| <= k < |t.stack| :: t.stack[k] !in t.gray
    ensures n < |t.stack| && t.stack[n] == f && forall k | n < k < |t.stack| :: t.stack[k] !in t.gray
  {
    assert t.stack[n] == t.stack[..|s.stack|][n];
    forall k | n < k < |t.stack| ensures t.stack[k] !in t.gray {
      if k < |s.stack| {
        assert t.stack[k] == t.stack[..|s.stack|][k] == s.stack[k];
      }
    }
  }

  lemma LowMore(g: Graph, s: Search, t: Search, f: int, n: nat, c: int, low: nat, low': nat)
    requires Extends(s, t) && LowIs(g, s, f, low) && Edge(g, f, c) && f in s.orders && low <= s.orders[f] && c in t.orders
    requires (c in t.stack ==> LowIs(g, t, c, low')) && (c !in t.stack ==> low' == t.orders[c]) && t.orders[f] < t.orders[c]
    ensures LowIs(g, t, f, Min(low, low'))
  {
    hide Reaches;
    if low' < low {
      var y :| y in t.stack && y in t.orders && t.orders[y] == low' && Reaches(g, c, y);
      ReachesEdge(g, f, c);
      ReachesTrans(g, f, c, y);
    } else {
      var y :| y in s.stack && y in s.orders && s.orders[y] == low && Reaches(g, f, y);
      assert y in t.stack[..|s.stack|];
    }
  }

  lemma CrossingsMore(g: Graph, s: Search, t: Search, n: nat, low: nat, low': nat)
    requires Extends(s, t) && n < |s.stack| && CrossingsFrom(g, s, n + 1, n, low) && CrossingsFrom(g, t, |s.stack|, |s.stack|, low')
    ensures CrossingsFrom(g, t, n + 1, n, Min(low, low'))
  {
    forall i, j | n + 1 <= i < |t.stack| && 0 <= j < n && Edge(g, t.stack[i], t.stack[j])
      ensures t.stack[j] in t.orders && Min(low, low') <= t.orders[t.stack[j]]
    {
      assert t.stack[j] == t.stack[..|s.stack|][j] == s.stack[j];
      if i < |s.stack| {
        assert t.stack[i] == t.stack[..|s.stack|][i] == s.stack[i];
      }
    }
  }

  lemma FollowedMore(g: Graph, s: Search, t: Search, f: int, n: nat, i: nat, low: nat, low': nat)
    requires f in g && i < |g[f]| && n < |s.stack| && Extends(s, t) && FollowedCalls(g[f], s, n, i, low)
    requires g[f][i] in t.orders && g[f][i] !in s.orders && Sorted(s)
    ensures FollowedCalls(g[f], t, n, i + 1, Min(low, low'))
  {
    forall j | 0 <= j < i + 1
      ensures g[f][j] in t.orders && (forall k | 0 <= k < n && t.stack[k] == g[f][j] :: Min(low, low') <= t.orders[g[f][j]])
    {
      if j < i {
        assert g[f][j] in s.orders;
        ExtendsSeen(s, t, g[f][j]);
      } else {
        assert j == i;
      }
      forall k | 0 <= k < n && t.stack[k] == g[f][j] ensures Min(low, low') <= t.orders[g[f][j]] {
        assert t.stack[k] == t.stack[..|s.stack|][k] == s.stack[k];
        assert s.stack[k] in s.orders;
      }
    }
  }

  /** A call to a function that has been seen: on the stack, its order counts; otherwise it does not. */
  lemma FollowingSeen(g: Graph, s: Search, f: int, n: nat, i: nat, low: nat, low': nat)
    requires f in g && Following(g, s, f, n, i, low) && i < |g[f]| && g[f][i] in s.orders
    requires low' == if g[f][i] in s.stack then Min(low, s.orders[g[f][i]]) else low
    ensures Following(g, s, f, n, i + 1, low')
  {
    hide SearchOk, Reaches;
    var c := g[f][i];
    if c in s.stack && s.orders[c] < low {
      ReachesEdge(g, f, c);
      assert c in s.stack && s.orders[c] == low';
      assert LowIs(g, s, f, low');
    }
  }

  // ---------- labels ----------

  /** Which cycle object each function has, the members of each cycle object, and how many there have been. */
  datatype Labels = Labels(cycleOf: map<int, nat>, members: map<nat, set<int>>, next: nat)

  ghost predicate LabelledRight(g: Graph, l: Labels, x: int) {
    && x in l.cycleOf && l.cycleOf[x] < l.next && l.cycleOf[x] in l.members
    && IsComponent(g, l.members[l.cycleOf[x]]) && x in l.members[l.cycleOf[x]]
    && exists y :: y in l.members[l.cycleOf[x]] && y != x
  }

  ghost predicate Together(l: Labels, x: int, y: int) {
    x in l.cycleOf && y in l.cycleOf && l.cycleOf[x] == l.cycleOf[y]
  }

  /** Among the functions seen, those with a cycle are in one of two or more members; two that reach each other have the same. */
  ghost predicate LabelsOk(g: Graph, l: Labels, seen: set<int>) {
    && (forall x | x in l.cycleOf :: x in seen && LabelledRight(g, l, x))
    && (forall x, y | x in seen && y in seen && x != y && Mutual(g, x, y) :: Together(l, x, y))
    && (forall c | c in l.members :: c < l.next)
  }

  function Relabel(l: Labels, c: set<int>): Labels {
    Labels(map x | x in l.cycleOf.Keys + c :: if x in c then l.next else l.cycleOf[x], l.members[l.next := c], l.next + 1)
  }

  /** A component, new or found again, gets a new cycle as a whole. */
  lemma RelabelOk(g: Graph, l: Labels, seen: set<int>, c: set<int>, a: int, b: int)
    requires LabelsOk(g, l, seen) && IsComponent(g, c) && a in c && b in c && a != b
    ensures LabelsOk(g, Relabel(l, c), seen + c)
  {
    hide Mutual;
    var k := Relabel(l, c);
    forall x | x in k.cycleOf ensures x in seen + c && LabelledRight(g, k, x) {
      if x in c {
        assert k.members[l.next] == c;
        assert (if x == a then b else a) in c;
      } else {
        assert LabelledRight(g, l, x);
        var y :| y in l.members[l.cycleOf[x]] && y != x;
        assert y in k.members[k.cycleOf[x]];
      }
    }
    forall x, y | x in seen + c && y in seen + c && x != y && Mutual(g, x, y) ensures Together(k, x, y) {
      MutualSym(g, x, y);
      if x in c || y in c {
        assert x in c && y in c;
      } else {
        assert Together(l, x, y);
      }
    }
  }

  lemma MutualSym(g: Graph, x: int, y: int)
    ensures Mutual(g, x, y) <==> Mutual(g, y, x)
  {
  }

  /** A component of one function gets no cycle. */
  lemma SingleOk(g: Graph, l: Labels, seen: set<int>, f: int)
    requires LabelsOk(g, l, seen) && IsComponent(g, {f})
    ensures LabelsOk(g, l, seen + {f})
  {
    hide Mutual;
    forall x, y | x in seen + {f} && y in seen + {f} && x != y && Mutual(g, x, y) ensures Together(l, x, y) {
      MutualSym(g, x, y);
      assert x != f && y != f;
    }
  }

  /** What the labels say once every function has been seen. */
  lemma LabelsAre(g: Graph, l: Labels)
    requires LabelsOk(g, l, g.Keys)
    ensures forall x, y | x in g && y in g && x != y :: Together(l, x, y) <==> Mutual(g, x, y)
    ensures forall x | x in g :: x in l.cycleOf <==> HasPartner(g, x)
    ensures forall x | x in l.cycleOf :: x in g && l.cycleOf[x] in l.members && IsComponent(g, l.members[l.cycleOf[x]]) && x in l.members[l.cycleOf[x]]
  {
    hide Mutual;
    forall x, y | x in g && y in g && x != y ensures Together(l, x, y) <==> Mutual(g, x, y) {
      if Together(l, x, y) {
        assert LabelledRight(g, l, x) && LabelledRight(g, l, y);
      }
    }
    forall x | x in g ensures x in l.cycleOf <==> HasPartner(g, x) {
      if x in l.cycleOf {
        assert LabelledRight(g, l, x);
        var y :| y in l.members[l.cycleOf[x]] && y != x;
        InGraph(g, x, y);
        assert Mutual(g, x, y);
      }
      if HasPartner(g, x) {
        var y :| y in g && y != x && Mutual(g, x, y);
        assert Together(l, x, y);
      }
    }
  }

  /** The function is in a cycle: another one reaches it and is reached by it. */
  ghost predicate HasPartner(g: Graph, x: int) {
    exists y :: y in g && y != x && Mutual(g, x, y)
  }

  lemma InGraph(g: Graph, x: int, y: int)
    requires x != y && Mutual(g, x, y)
    ensures y in g
  {
    var p :| IsPath(g, p) && p[0] == y && p[|p| - 1] == x;
    assert Edge(g, p[0], p[1]);
  }
}

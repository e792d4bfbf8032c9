/** Profile.find_cycles and Profile._tarjan: the cycles of a call graph, labelled in place. */
module Profiles {
  import opened Wrappers
  import opened CallGraphs
  import opened Cycles

  class Profile {
    /** Every function's calls, and the order in which the functions are gone through. */
    const functions: Graph
    const order: seq<int>
    var cycleOf: map<int, nat>
    var members: map<nat, set<int>>
    var nextCycle: nat
    var cycles: seq<nat>
    // the state of one search
    var visited: set<int>
    var stack: seq<int>
    var orders: map<int, nat>
    var lowlinks: map<int, nat>

    function ViewOf(gray: set<int>): Search
      reads this
    {
      Search(stack, orders, gray)
    }

    function LabelsOf(): Labels
      reads this
    {
      Labels(cycleOf, members, nextCycle)
    }

    /** Cycle.add_function: the function's cycle becomes this one; no other function follows it. */
    method AddFunction(cycle: nat, function_: int)
      requires cycle in members && function_ !in members[cycle]
      requires function_ in cycleOf ==> cycleOf[function_] in members
      modifies this`cycleOf, this`members
      ensures members == old(members)[cycle := old(members)[cycle] + {function_}]
      ensures cycleOf == old(cycleOf)[function_ := cycle]
    {
      members := members[cycle := members[cycle] + {function_}];
      if function_ in cycleOf {
        var others := members[cycleOf[function_]];
        while others != {}
          invariant members == old(members)[cycle := old(members)[cycle] + {function_}] && cycleOf == old(cycleOf)
        {
          NotEmpty(others);
          var other :| other in others;
          others := others - {other};
          if function_ !in members[cycle] {
            // adding the function came first, so its old companions are never added
            assert false;
          }
        }
      }
      cycleOf := cycleOf[function_ := cycle];
    }

    /** The members of a component of two or more get a new cycle object. */
    method MakeCycle(found: seq<int>)
      requires forall i, j | 0 <= i < j < |found| :: found[i] != found[j]
      requires forall x | x in cycleOf :: cycleOf[x] in members
      requires forall c | c in members :: c < nextCycle
      modifies this`cycleOf, this`members, this`nextCycle
      ensures LabelsOf() == Relabel(old(LabelsOf()), Elements(found))
    {
      hide Relabel;
      var cycle := nextCycle;
      members := members[cycle := {}];
      nextCycle := nextCycle + 1;
      var i := 0;
      RelabelNone(old(LabelsOf()));
      while i < |found|
        invariant 0 <= i <= |found| && LabelsOf() == Relabel(old(LabelsOf()), Elements(found[..i]))
      {
        FoundMore(found, i);
        RelabelMore(old(LabelsOf()), Elements(found[..i]), found[i]);
        NotYetFound(found, i);
        AddFunction(cycle, found[i]);
        i := i + 1;
      }
      assert found[..|found|] == found;
    }

    /** Function f is being explored, above the search s0, and the first i of its calls have been followed. */
    ghost predicate Exploring(s0: Search, f: int, first: nat, labelled: set<int>, i: nat, next: nat)
      reads this
    {
      && f in functions && i <= |functions[f]| && f in lowlinks && f in orders && f !in s0.orders
      && lowlinks.Keys == orders.Keys && orders.Keys <= functions.Keys && s0.orders.Keys <= orders.Keys
      && Following(functions, ViewOf(s0.gray + {f}), f, |s0.stack|, i, lowlinks[f])
      && Extends(Enter(s0, f, first), ViewOf(s0.gray + {f}))
      && (forall x | x in orders :: orders[x] < next)
      && LabelsOk(functions, LabelsOf(), labelled + Done(ViewOf(s0.gray + {f})))
    }

    /** Profile._tarjan: explores a function that this search has not seen; returns the order of the next one to be seen. */
    method Tarjan(f: int, first: nat, ghost gray: set<int>, ghost labelled: set<int>) returns (next: nat)
      requires Closed(functions) && f in functions && f !in orders && SearchOk(functions, ViewOf(gray))
      requires (forall x | x in orders :: orders[x] < first) && lowlinks.Keys == orders.Keys
      requires forall x | x in gray :: Reaches(functions, x, f)
      requires LabelsOk(functions, LabelsOf(), labelled + Done(ViewOf(gray)))
      modifies this`cycleOf, this`members, this`nextCycle, this`visited, this`stack, this`orders, this`lowlinks
      ensures (forall x | x in orders :: orders[x] < next) && lowlinks.Keys == orders.Keys && orders.Keys <= functions.Keys
      ensures forall x | x in old(orders) :: x in lowlinks && lowlinks[x] == old(lowlinks[x])
      ensures f in lowlinks && CallFollowed(functions, old(ViewOf(gray)), ViewOf(gray), f, lowlinks[f])
      ensures LabelsOk(functions, LabelsOf(), labelled + Done(ViewOf(gray)))
      ensures visited == old(visited) + (orders.Keys - old(orders).Keys)
      decreases functions.Keys - orders.Keys, 0
    {
      hide SearchOk, Reaches, LabelsOk, Done, Following, CallFollowed, Explored, Exploring, Extends, Enter, LowIs;
      ghost var s0 := ViewOf(gray);
      var pos := |stack|;
      EnterFunction(f, first, gray, labelled);
      next := first + 1;
      var i := 0;
      while i < |functions[f]|
        invariant 0 <= i <= |functions[f]| && Exploring(s0, f, first, labelled, i, next)
        invariant old(orders).Keys <= orders.Keys && f in orders && f in functions
        invariant forall x | x in s0.orders :: x in lowlinks && lowlinks[x] == old(lowlinks[x])
        invariant visited == old(visited) + (orders.Keys - old(orders).Keys)
      {
        ghost var v, a, b := visited, old(orders).Keys, orders.Keys;
        Shrinks(functions.Keys, a, b, f);
        next := FollowCall(s0, f, first, labelled, i, next);
        VisitedMore(old(visited), a, b, orders.Keys);
        i := i + 1;
      }
      ExploringIs(s0, f, first, labelled, i, next);
      FollowingEnds(functions, ViewOf(gray + {f}), f, |s0.stack|, lowlinks[f]);
      BelowOrder(functions, ViewOf(gray + {f}), f, |s0.stack|, lowlinks[f]);
      if lowlinks[f] == orders[f] {
        PopComponent(f, pos, first, next, lowlinks[f], s0, gray, labelled);
      } else {
        StaysOnStack(functions, s0, ViewOf(gray + {f}), f, first, lowlinks[f], labelled, LabelsOf());
        assert ViewOf(gray) == ViewOf(gray + {f}).(gray := gray);
      }
    }

    lemma ExploringIs(s0: Search, f: int, first: nat, labelled: set<int>, i: nat, next: nat)
      requires Exploring(s0, f, first, labelled, i, next)
      ensures f in functions && i <= |functions[f]| && f in lowlinks && f in orders && f !in s0.orders
      ensures lowlinks.Keys == orders.Keys && orders.Keys <= functions.Keys && s0.orders.Keys <= orders.Keys
      ensures Following(functions, ViewOf(s0.gray + {f}), f, |s0.stack|, i, lowlinks[f])
      ensures Extends(Enter(s0, f, first), ViewOf(s0.gray + {f})) && forall x | x in orders :: orders[x] < next
      ensures LabelsOk(functions, LabelsOf(), labelled + Done(ViewOf(s0.gray + {f})))
    {
      hide Following, Extends, LabelsOk, Done, Enter;
    }

    /** The beginning of _tarjan: f is visited, numbered and put on the stack. */
    method EnterFunction(f: int, first: nat, ghost gray: set<int>, ghost labelled: set<int>)
      requires f in functions && f !in orders && SearchOk(functions, ViewOf(gray))
      requires (forall x | x in orders :: orders[x] < first) && lowlinks.Keys == orders.Keys
      requires forall x | x in gray :: Reaches(functions, x, f)
      requires LabelsOk(functions, LabelsOf(), labelled + Done(ViewOf(gray)))
      modifies this`visited, this`stack, this`orders, this`lowlinks
      ensures Exploring(old(ViewOf(gray)), f, first, labelled, 0, first + 1) && f !in gray
      ensures visited == old(visited) + {f} && orders == old(orders)[f := first] && lowlinks == old(lowlinks)[f := first]
    {
      hide SearchOk, Reaches, LabelsOk, Done, Following;
      ghost var g, s0 := functions, ViewOf(gray);
      EnterOk(g, s0, f, first);
      EnterBounds(g, s0);
      FollowingStarts(g, s0, f, first);
      visited := visited + {f};
      orders := orders[f := first];
      lowlinks := lowlinks[f := first];
      stack := stack + [f];
      assert ViewOf(gray + {f}) == Enter(s0, f, first);
    }

    /** One call of f: its callee is explored when this search has not seen it; when it is on the stack its order counts. */
    method FollowCall(ghost s0: Search, f: int, ghost first: nat, ghost labelled: set<int>, i: nat, order_: nat) returns (next: nat)
      requires Closed(functions) && Exploring(s0, f, first, labelled, i, order_) && i < |functions[f]|
      requires forall x | x in s0.gray :: Reaches(functions, x, f)
      modifies this`cycleOf, this`members, this`nextCycle, this`visited, this`stack, this`orders, this`lowlinks
      ensures Exploring(s0, f, first, labelled, i + 1, next) && old(orders).Keys <= orders.Keys
      ensures forall x | x in s0.orders && x in old(lowlinks) :: x in lowlinks && lowlinks[x] == old(lowlinks[x])
      ensures visited == old(visited) + (orders.Keys - old(orders).Keys)
      decreases functions.Keys - orders.Keys, 1
    {
      hide SearchOk, Reaches, LabelsOk, Done, Following, CallFollowed, Extends, Enter, Closed, LowIs, FollowedCalls, CrossingsFrom;
      next := order_;
      ghost var gray', pos := s0.gray + {f}, |s0.stack|;
      ghost var s := ViewOf(gray');
      var callee := functions[f][i];
      FollowingCall(functions, s, f, pos, i, lowlinks[f]);
      if callee !in orders {
        GrayReaches(functions, s0, s0.gray, f, callee);
        next := Tarjan(callee, next, gray', labelled);
        ghost var t := ViewOf(gray');
        FollowedExtends(functions, s, t, callee, lowlinks[callee]);
        FollowingRecursion(functions, s, t, f, pos, i, lowlinks[f], lowlinks[callee]);
        ExtendsTrans(Enter(s0, f, first), s, t);
        lowlinks := lowlinks[f := Min(lowlinks[f], lowlinks[callee])];
      } else {
        FollowingSeen(functions, s, f, pos, i, lowlinks[f], if callee in stack then Min(lowlinks[f], orders[callee]) else lowlinks[f]);
        if callee in stack {
          lowlinks := lowlinks[f := Min(lowlinks[f], orders[callee])];
        }
      }
    }

    /** What is above f on the stack goes away, and gets a cycle if it is more than f. */
    method PopComponent(f: int, pos: nat, ghost first: nat, ghost next: nat, ghost low: nat, ghost s0: Search, ghost gray: set<int>,
                        ghost labelled: set<int>)
      requires f in functions && pos == |s0.stack| && s0.gray == gray && f !in gray && f in lowlinks && f in orders && lowlinks[f] == orders[f]
      requires (forall x | x in s0.orders :: s0.orders[x] < first) && low == lowlinks[f]
      requires Exploring(s0, f, first, labelled, |functions[f]|, next)
      modifies this`cycleOf, this`members, this`nextCycle, this`stack
      ensures CallFollowed(functions, s0, ViewOf(gray), f, low)
      ensures LabelsOk(functions, LabelsOf(), labelled + Done(ViewOf(gray)))
    {
      hide SearchOk, Reaches, LabelsOk, Done, Explored, Exploring, CallFollowed, Members, Mutual, IsComponent, LowIs, Extends, Enter, Relabel,
           LabelledRight, Following;
      ghost var g, s := functions, ViewOf(gray + {f});
      ExploringIs(s0, f, first, labelled, |functions[f]|, next);
      FollowingEnds(g, s, f, pos, lowlinks[f]);
      PopFacts(g, s0, s, f, first, lowlinks[f]);
      LabelsSound(g, LabelsOf(), labelled + Done(s));
      var found := stack[pos..];
      stack := stack[..pos];
      PopView(s, f, pos, gray);
      if |found| > 1 {
        RelabelPart(g, LabelsOf(), labelled, s, f, pos);
        MakeCycle(found);
      } else {
        SinglePart(g, LabelsOf(), labelled, s, f, pos);
      }
    }

    /** Profile.find_cycles. */
    method FindCycles()
      requires Closed(functions) && (set x | x in order) == functions.Keys && forall i, j | 0 <= i < j < |order| :: order[i] != order[j]
      requires cycleOf == map[] && forall c | c in members :: c < nextCycle
      modifies this
      ensures forall x, y | x in functions && y in functions && x != y :: Together(LabelsOf(), x, y) <==> Mutual(functions, x, y)
      ensures forall x | x in functions :: x in cycleOf <==> HasPartner(functions, x)
      ensures forall x | x in cycleOf :: cycleOf[x] in members && IsComponent(functions, members[cycleOf[x]]) && x in members[cycleOf[x]]
      ensures (forall c :: c in cycles <==> IsCycleOfSome(cycleOf, c)) && forall i, j | 0 <= i < j < |cycles| :: cycles[i] != cycles[j]
    {
      hide SearchOk, Reaches, LabelsOk, Done, CallFollowed;
      visited := {};
      NoLabels(functions, LabelsOf());
      var i := 0;
      while i < |order|
        invariant 0 <= i <= |order| && visited <= functions.Keys && forall j | 0 <= j < i :: order[j] in visited
        invariant LabelsOk(functions, LabelsOf(), visited)
      {
        var f := order[i];
        if f !in visited {
          Explore(f);
        }
        i := i + 1;
      }
      AllVisited(order, visited, functions);
      LabelsAre(functions, LabelsOf());
      CollectCycles();
    }

    /** A search with fresh numbering from a function that no search has visited. */
    method Explore(f: int)
      requires Closed(functions) && f in functions && visited <= functions.Keys && LabelsOk(functions, LabelsOf(), visited)
      modifies this`cycleOf, this`members, this`nextCycle, this`visited, this`stack, this`orders, this`lowlinks
      ensures old(visited) <= visited <= functions.Keys && f in visited && LabelsOk(functions, LabelsOf(), visited)
    {
      hide SearchOk, Reaches, LabelsOk, Done, CallFollowed, Closed;
      stack, orders, lowlinks := [], map[], map[];
      StartOk(functions, ViewOf({}));
      ghost var before := visited;
      assert before + Done(ViewOf({})) == before;
      var next := Tarjan(f, 0, {}, visited);
      SearchComplete(functions, ViewOf({}), f, lowlinks[f]);
      assert visited == before + Done(ViewOf({}));
    }

    /** The cycle objects that some function has, each once. */
    method CollectCycles()
      requires (set x | x in order) == functions.Keys && forall x | x in cycleOf :: x in functions
      modifies this`cycles
      ensures (forall c :: c in cycles <==> IsCycleOfSome(cycleOf, c)) && forall i, j | 0 <= i < j < |cycles| :: cycles[i] != cycles[j]
    {
      var found: seq<nat> := [];
      var i := 0;
      while i < |order|
        invariant 0 <= i <= |order|
        invariant forall c :: c in found <==> Collected(order, cycleOf, i, c)
        invariant forall i, j | 0 <= i < j < |found| :: found[i] != found[j]
      {
        var f := order[i];
        CollectMore(order, cycleOf, i);
        if f in cycleOf && cycleOf[f] !in found {
          found := found + [cycleOf[f]];
        }
        i := i + 1;
      }
      cycles := found;
      CollectedAll(order, cycleOf, functions);
    }
  }

  /** Some function among the first i has this cycle object. */
  ghost predicate Collected(order: seq<int>, cycleOf: map<int, nat>, i: nat, c: nat) {
    exists j :: 0 <= j < i && j < |order| && order[j] in cycleOf && cycleOf[order[j]] == c
  }

  lemma CollectMore(order: seq<int>, cycleOf: map<int, nat>, i: nat)
    requires i < |order|
    ensures forall c :: Collected(order, cycleOf, i + 1, c) <==>
              (Collected(order, cycleOf, i, c) || (order[i] in cycleOf && cycleOf[order[i]] == c))
  {
    forall c: nat
      ensures Collected(order, cycleOf, i + 1, c) <==>
              (Collected(order, cycleOf, i, c) || (order[i] in cycleOf && cycleOf[order[i]] == c))
    {
      if Collected(order, cycleOf, i + 1, c) {
        var j :| 0 <= j < i + 1 && j < |order| && order[j] in cycleOf && cycleOf[order[j]] == c;
        assert j < i || j == i;
      }
    }
  }

  lemma CollectedAll(order: seq<int>, cycleOf: map<int, nat>, g: Graph)
    requires (set x | x in order) == g.Keys && forall x | x in cycleOf :: x in g
    ensures forall c :: Collected(order, cycleOf, |order|, c) <==> IsCycleOfSome(cycleOf, c)
  {
    forall c: nat
      ensures Collected(order, cycleOf, |order|, c) <==> IsCycleOfSome(cycleOf, c)
    {
      if Collected(order, cycleOf, |order|, c) {
        var j :| 0 <= j < |order| && order[j] in cycleOf && cycleOf[order[j]] == c;
        var x := order[j];
        assert x in cycleOf && cycleOf[x] == c;
      }
      if IsCycleOfSome(cycleOf, c) {
        var x :| x in cycleOf && cycleOf[x] == c;
        assert x in g.Keys && x in set y | y in order;
        var j :| 0 <= j < |order| && order[j] == x;
      }
    }
  }

  // ---------- steps of the methods ----------

  ghost function Elements(xs: seq<int>): set<int> {
    set x | x in xs
  }

  /** Some function has this cycle object. */
  ghost predicate IsCycleOfSome(cycleOf: map<int, nat>, c: nat) {
    exists x :: x in cycleOf && cycleOf[x] == c
  }

  lemma FoundMore(found: seq<int>, i: nat)
    requires i < |found|
    ensures found[..i + 1] == found[..i] + [found[i]] && Elements(found[..i + 1]) == Elements(found[..i]) + {found[i]}
  {
    forall x ensures x in Elements(found[..i + 1]) <==> x in Elements(found[..i]) + {found[i]} {
      assert x in found[..i] + [found[i]] <==> x in found[..i] || x == found[i];
    }
  }

  lemma RelabelNone(l: Labels)
    ensures Elements([]) == {} && Relabel(l, {}) == Labels(l.cycleOf, l.members[l.next := {}], l.next + 1)
  {
  }

  lemma NotYetFound(found: seq<int>, i: nat)
    requires i < |found| && forall i, j | 0 <= i < j < |found| :: found[i] != found[j]
    ensures found[i] !in Elements(found[..i])
  {
  }

  lemma RelabelMore(l: Labels, c: set<int>, x: int)
    ensures var k := Relabel(l, c); l.next in k.members && k.members[l.next] == c && k.next == l.next + 1
    ensures var k := Relabel(l, c);
      (forall y | y in l.cycleOf :: l.cycleOf[y] in l.members) ==> forall y | y in k.cycleOf :: k.cycleOf[y] in k.members
    ensures var k := Relabel(l, c);
      Relabel(l, c + {x}) == Labels(k.cycleOf[x := l.next], k.members[l.next := k.members[l.next] + {x}], k.next)
  {
  }

  lemma EnterBounds(g: Graph, s: Search)
    requires SearchOk(g, s)
    ensures s.orders.Keys <= g.Keys && forall x | x in s.gray :: x in s.stack && x in s.orders
  {
    assert forall x | x in s.orders.Keys :: x in g.Keys;
  }

  lemma FollowingCall(g: Graph, s: Search, f: int, n: nat, i: nat, low: nat)
    requires Closed(g) && f in g && Following(g, s, f, n, i, low) && i < |g[f]|
    ensures SearchOk(g, s) && g[f][i] in g && n < |s.stack| && s.stack[n] == f && f in s.orders
  {
    assert Edge(g, f, g[f][i]);
  }

  lemma GrayReaches(g: Graph, s: Search, gray: set<int>, f: int, callee: int)
    requires Edge(g, f, callee) && forall x | x in gray :: Reaches(g, x, f)
    ensures forall x | x in gray + {f} :: Reaches(g, x, callee)
  {
    ReachesEdge(g, f, callee);
    forall x | x in gray + {f} ensures Reaches(g, x, callee) {
      if x in gray {
        ReachesTrans(g, x, f, callee);
      }
    }
  }

  lemma FollowedExtends(g: Graph, s: Search, t: Search, c: int, low: nat)
    requires CallFollowed(g, s, t, c, low)
    ensures Extends(s, t) && SearchOk(g, t) && s.orders.Keys <= t.orders.Keys
  {
    forall x | x in s.orders.Keys ensures x in t.orders.Keys {
      ExtendsSeen(s, t, x);
    }
  }

  lemma Shrinks(all: set<int>, a: set<int>, b: set<int>, f: int)
    requires a <= b && f in all && f in b && f !in a
    ensures all - b < all - a
  {
    assert f in all - a && f !in all - b;
  }

  lemma VisitedMore(v: set<int>, a: set<int>, b: set<int>, c: set<int>)
    requires a <= b <= c
    ensures v + (b - a) + (c - b) == v + (c - a)
  {
  }

  lemma BelowOrder(g: Graph, s: Search, f: int, n: nat, low: nat)
    requires Explored(g, s, f, n, low)
    ensures f in s.orders && low <= s.orders[f]
  {
  }

  lemma SameDone(s: Search, gray: set<int>)
    ensures Done(s.(gray := gray)) == Done(s)
  {
  }

  lemma EnteredStays(s0: Search, s: Search, f: int, first: nat)
    requires Extends(Enter(s0, f, first), s)
    ensures |s.stack| > |s0.stack| && s.stack[..|s0.stack|] == s0.stack && f in s.orders && s.orders[f] == first
    ensures forall x | x in s0.orders && x != f :: x in s.orders && s.orders[x] == s0.orders[x]
  {
    assert s.stack[..|s0.stack|] == s.stack[..|s0.stack| + 1][..|s0.stack|];
  }

  lemma FollowedOrders(s0: Search, s: Search, f: int, first: nat)
    requires f !in s0.orders && Extends(Enter(s0, f, first), s) && forall x | x in s0.orders :: s0.orders[x] < first
    ensures f in s.orders && forall x | x in s0.orders && x in s.orders :: s.orders[x] < s.orders[f]
    ensures Extends(s0, Search(s.stack, s.orders, s0.gray)) && |s0.stack| < |s.stack|
    ensures Extends(s0, Search(s.stack[..|s0.stack|], s.orders, s0.gray))
  {
    EnteredStays(s0, s, f, first);
    assert s.stack[..|s0.stack|][..|s0.stack|] == s0.stack;
  }

  lemma PoppedFollowed(g: Graph, s0: Search, s: Search, f: int, first: nat, low: nat)
    requires f !in s0.orders && f !in s0.gray && Extends(Enter(s0, f, first), s) && s.gray == s0.gray + {f}
    requires |s0.stack| < |s.stack| && f in s.orders
    requires Explored(g, s, f, |s0.stack|, low) && low == s.orders[f] && SearchOk(g, Pop(s, f, |s0.stack|))
    requires forall x | x in s0.orders :: s0.orders[x] < first
    ensures CallFollowed(g, s0, Pop(s, f, |s0.stack|), f, low)
  {
    hide SearchOk, Reaches, Explored, LowIs, Extends, Enter;
    FollowedOrders(s0, s, f, first);
    assert Pop(s, f, |s0.stack|) == Search(s.stack[..|s0.stack|], s.orders, s0.gray);
    PoppedAway(g, s, f, |s0.stack|, low);
  }

  /** All that popping needs: it is a component that is popped, and the search is in order without it. */
  lemma PopFacts(g: Graph, s0: Search, s: Search, f: int, first: nat, low: nat)
    requires f !in s0.orders && f !in s0.gray && Extends(Enter(s0, f, first), s) && s.gray == s0.gray + {f}
    requires Explored(g, s, f, |s0.stack|, low) && f in s.orders && low == s.orders[f]
    requires forall x | x in s0.orders :: s0.orders[x] < first
    ensures |s0.stack| < |s.stack| && s.stack[|s0.stack|] == f
    ensures CallFollowed(g, s0, Pop(s, f, |s0.stack|), f, low)
    ensures IsComponent(g, Members(s, |s0.stack|)) && Done(Pop(s, f, |s0.stack|)) == Done(s) + Members(s, |s0.stack|)
    ensures forall i, j | 0 <= i < j < |s.stack[|s0.stack|..]| :: s.stack[|s0.stack|..][i] != s.stack[|s0.stack|..][j]
  {
    hide *;
    var n := |s0.stack|;
    ExploredParts(g, s, f, n, low);
    PartIsComponent(g, s, f, n, low);
    PopOk(g, s, f, n, low);
    DistinctPart(g, s, f, n, low);
    PoppedFollowed(g, s0, s, f, first, low);
  }

  lemma PopView(s: Search, f: int, n: nat, gray: set<int>)
    requires n <= |s.stack| && s.gray == gray + {f} && f !in gray
    ensures Pop(s, f, n) == Search(s.stack[..n], s.orders, gray)
  {
  }

  lemma PoppedAway(g: Graph, s: Search, f: int, n: nat, low: nat)
    requires Explored(g, s, f, n, low)
    ensures f !in s.stack[..n]
  {
    hide Reaches, ReachesUp, NothingMissed, AllLeadBack, ClosedSet, Done, LowIs, CrossingsFrom;
    PartsDiffer(s, n);
  }

  lemma LeftFollowed(g: Graph, s0: Search, s: Search, f: int, first: nat, low: nat)
    requires f !in s0.orders && f !in s0.gray && Extends(Enter(s0, f, first), s) && s.gray == s0.gray + {f}
    requires Explored(g, s, f, |s0.stack|, low) && SearchOk(g, s.(gray := s0.gray))
    requires forall x | x in s0.orders :: s0.orders[x] < first
    ensures CallFollowed(g, s0, s.(gray := s0.gray), f, low)
  {
    hide SearchOk, Reaches, Explored, LowIs, CrossingsFrom, Extends, Enter;
    FollowedOrders(s0, s, f, first);
    LeftLow(g, s, f, |s0.stack|, low, s0.gray);
    assert s.(gray := s0.gray) == Search(s.stack, s.orders, s0.gray);
  }

  lemma StaysOnStack(g: Graph, s0: Search, s: Search, f: int, first: nat, low: nat, labelled: set<int>, l: Labels)
    requires f !in s0.orders && f !in s0.gray && Extends(Enter(s0, f, first), s) && s.gray == s0.gray + {f}
    requires Explored(g, s, f, |s0.stack|, low) && f in s.orders && low < s.orders[f] && LabelsOk(g, l, labelled + Done(s))
    requires forall x | x in s0.orders :: s0.orders[x] < first
    ensures CallFollowed(g, s0, s.(gray := s0.gray), f, low) && LabelsOk(g, l, labelled + Done(s.(gray := s0.gray)))
  {
    hide *;
    LeaveOk(g, s, f, |s0.stack|, low);
    assert s.gray - {f} == s0.gray;
    LeftFollowed(g, s0, s, f, first, low);
    SameDone(s, s0.gray);
  }

  lemma LeftLow(g: Graph, s: Search, f: int, n: nat, low: nat, gray: set<int>)
    requires Explored(g, s, f, n, low) && gray <= s.gray
    requires f !in gray
    ensures var t := s.(gray := gray);
      && LowIs(g, t, f, low) && CrossingsFrom(g, t, n, n, low) && f in t.stack && f in t.orders && low <= t.orders[f]
      && forall k | n <= k < |t.stack| :: t.stack[k] !in gray
  {
    hide Reaches, SearchOk;
    assert s.stack[n] == f;
  }

  lemma DistinctPart(g: Graph, s: Search, f: int, n: nat, low: nat)
    requires Explored(g, s, f, n, low)
    ensures forall i, j | 0 <= i < j < |s.stack[n..]| :: s.stack[n..][i] != s.stack[n..][j]
  {
    hide Reaches, ReachesUp, NothingMissed, AllLeadBack, ClosedSet, Done, LowIs, CrossingsFrom;
    forall i, j | 0 <= i < j < |s.stack[n..]| ensures s.stack[n..][i] != s.stack[n..][j] {
      assert s.orders[s.stack[n + i]] < s.orders[s.stack[n + j]];
    }
  }

  lemma LabelsSound(g: Graph, l: Labels, seen: set<int>)
    requires LabelsOk(g, l, seen)
    ensures (forall x | x in l.cycleOf :: l.cycleOf[x] in l.members) && forall c | c in l.members :: c < l.next
  {
    forall x | x in l.cycleOf ensures l.cycleOf[x] in l.members {
      assert LabelledRight(g, l, x);
    }
  }

  lemma RelabelPart(g: Graph, l: Labels, labelled: set<int>, s: Search, f: int, n: nat)
    requires n < |s.stack| && |s.stack[n..]| > 1 && s.stack[n..][0] != s.stack[n..][1]
    requires LabelsOk(g, l, labelled + Done(s)) && IsComponent(g, Members(s, n)) && Done(Pop(s, f, n)) == Done(s) + Members(s, n)
    ensures LabelsOk(g, Relabel(l, Elements(s.stack[n..])), labelled + Done(Pop(s, f, n)))
  {
    hide LabelsOk, IsComponent, Done;
    assert Members(s, n) == Elements(s.stack[n..]);
    RelabelOk(g, l, labelled + Done(s), Members(s, n), s.stack[n..][0], s.stack[n..][1]);
    assert labelled + Done(s) + Members(s, n) == labelled + Done(Pop(s, f, n));
  }

  lemma SinglePart(g: Graph, l: Labels, labelled: set<int>, s: Search, f: int, n: nat)
    requires n < |s.stack| && |s.stack[n..]| == 1 && s.stack[n] == f
    requires LabelsOk(g, l, labelled + Done(s)) && IsComponent(g, Members(s, n)) && Done(Pop(s, f, n)) == Done(s) + Members(s, n)
    ensures LabelsOk(g, l, labelled + Done(Pop(s, f, n)))
  {
    hide LabelsOk, IsComponent, Done;
    assert s.stack[n..] == [f];
    assert Members(s, n) == {f};
    SingleOk(g, l, labelled + Done(s), f);
    assert labelled + Done(s) + {f} == labelled + Done(Pop(s, f, n));
  }

  lemma NoLabels(g: Graph, l: Labels)
    requires l.cycleOf == map[] && forall c | c in l.members :: c < l.next
    ensures LabelsOk(g, l, {})
  {
  }

  lemma StartOk(g: Graph, s: Search)
    requires s == Search([], map[], {})
    ensures SearchOk(g, s) && Done(s) == {}
  {
    assert Done(s) == {};
  }

  /** A search that explores nothing any more has nothing on its stack. */
  lemma SearchComplete(g: Graph, s: Search, f: int, low: nat)
    requires CallFollowed(g, Search([], map[], {}), s, f, low) && s.gray == {}
    ensures Done(s) == s.orders.Keys && f in s.orders
  {
    hide Reaches, ReachesUp, NothingMissed, ClosedSet, CrossingsFrom, LowIs;
    NoneLeft(g, s);
  }

  lemma NoneLeft(g: Graph, s: Search)
    requires AllLeadBack(g, s) && s.gray == {}
    ensures s.stack == []
  {
    if |s.stack| > 0 {
      NoneLeadBack(g, s, s.stack[0]);
    }
  }

  lemma NoneLeadBack(g: Graph, s: Search, y: int)
    requires s.gray == {}
    ensures !LeadsBack(g, s, y)
  {
  }

  lemma AllVisited(order: seq<int>, visited: set<int>, g: Graph)
    requires (set x | x in order) == g.Keys && visited <= g.Keys && forall j | 0 <= j < |order| :: order[j] in visited
    ensures visited == g.Keys
  {
    forall x | x in g ensures x in visited {
      assert x in set y | y in order;
    }
  }
}

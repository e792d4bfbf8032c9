/** Two objects of one map: a definition of another selector on one of them can make a cached result stale. */
module StaleCache {
  import opened Wrappers
  import opened Delegation
  import opened Ranking
  import opened Dispatching
  import opened SameDispatch
  import opened SharedMaps
  import opened OrderMatters
  import opened GlobalCache

  /**
   * Object 10 delegates to 11, of map 1, which delegates to 12 and 13; 13 delegates to 14 and to 15, which is of map 1 too.
   * Selector 0 has definition 103 at object 14 and definition 104 at object 12.
   */
  function Sharing(): Memory {
    Memory(
      {0, 1, 2, 3, 4, 9}, 10,
      (o: int) => if o == 10 then 0 else if o == 11 || o == 15 then 1 else if o == 13 then 2 else if o == 14 then 3 else if o == 12 then 4 else 9,
      (m: int) => if m == 0 then [11] else if m == 1 then [12, 13] else if m == 2 then [14, 15] else [],
      (m: int) => false,
      (s: int) => (m: int) => if s == 0 && (m == 3 || m == 4) then [Role({0}, 100 + m)] else [],
      (d: int) => {0},
      (s: int) => {0})
  }

  /** Selector 1 gets a definition at object 11. */
  function Defined(): Memory {
    Represent(Sharing(), 1, 11, [Role({0}, 105)])
  }

  ghost predicate Plain(w: World) {
    forall m :: !w.restricts(m)
  }

  lemma NewStep(w: World, first: int, o: int, stack: seq<int>, seen: set<int>, next: Option<Walker>)
    requires Plain(w) && w.mapOf(o) in w.maps && w.mapOf(o) !in seen && next == Pop(stack + w.delegates(w.mapOf(o)), None)
    ensures Walk(w, first, Some(Walker(o, stack, None)), seen) == [w.mapOf(o)] + Walk(w, first, next, seen + {w.mapOf(o)})
    ensures |stack| < 100 && |w.delegates(w.mapOf(o))| < 100 && StackFits(w, first, next, seen + {w.mapOf(o)}) ==> StackFits(w, first, Some(Walker(o, stack, None)), seen)
  {
  }

  lemma OldStep(w: World, first: int, o: int, stack: seq<int>, seen: set<int>, next: Option<Walker>)
    requires w.mapOf(o) in seen && next == Pop(stack, None)
    ensures Walk(w, first, Some(Walker(o, stack, None)), seen) == Walk(w, first, next, seen)
    ensures StackFits(w, first, next, seen) ==> StackFits(w, first, Some(Walker(o, stack, None)), seen)
  {
  }

  lemma Top(stack: seq<int>, rest: seq<int>, o: int)
    requires stack == rest + [o] && |rest| < 100
    ensures Pop(stack, None) == Some(Walker(o, rest, None))
  {
  }

  /** The objects, that of number 11 having map x. */
  ghost predicate Objects(w: World, x: int) {
    && Plain(w) && {0, 1, 2, 3, 4, x} <= w.maps
    && w.mapOf(10) == 0 && w.mapOf(11) == x && w.mapOf(12) == 4 && w.mapOf(13) == 2 && w.mapOf(14) == 3 && w.mapOf(15) == 1
    && w.delegates(0) == [11] && w.delegates(1) == w.delegates(x) == [12, 13] && w.delegates(2) == [14, 15] && w.delegates(3) == w.delegates(4) == []
  }

  lemma ObjectsAre()
    ensures Objects(View(Sharing(), 0), 1) && Objects(View(Defined(), 0), 10)
  {
  }

  lemma WalkBefore(w: World)
    requires Objects(w, 1)
    ensures Visited(w, 10) == [0, 1, 2, 3, 4]
  {
    hide Walk, Pop;
    Top([11], [], 11);
    NewStep(w, 10, 10, [], {}, Some(Walker(11, [], None)));
    Top([] + [12, 13], [12], 13);
    NewStep(w, 10, 11, [], {} + {0}, Some(Walker(13, [12], None)));
    Top([12] + [14, 15], [12, 14], 15);
    NewStep(w, 10, 13, [12], {} + {0} + {1}, Some(Walker(15, [12, 14], None)));
    Top([12, 14], [12], 14);
    OldStep(w, 10, 15, [12, 14], {} + {0} + {1} + {2}, Some(Walker(14, [12], None)));
    Top([12] + [], [], 12);
    NewStep(w, 10, 14, [12], {} + {0} + {1} + {2}, Some(Walker(12, [], None)));
    LastStep(w, 12, {} + {0} + {1} + {2} + {3});
  }

  lemma LastStep(w: World, o: int, seen: set<int>)
    requires Plain(w) && w.mapOf(o) in w.maps && w.mapOf(o) !in seen && w.delegates(w.mapOf(o)) == []
    ensures Walk(w, 10, Some(Walker(o, [], None)), seen) == [w.mapOf(o)]
  {
  }

  lemma LastOld(w: World, o: int, seen: set<int>)
    requires w.mapOf(o) in seen
    ensures Walk(w, 10, Some(Walker(o, [], None)), seen) == [] && StackFits(w, 10, Some(Walker(o, [], None)), seen)
  {
  }

  lemma WalkAfter(w: World)
    requires Objects(w, 10)
    ensures Visited(w, 10) == [0, 10, 2, 1, 4, 3] && Fits(w, 10)
  {
    hide Walk, Pop, StackFits;
    Top([11], [], 11);
    NewStep(w, 10, 10, [], {}, Some(Walker(11, [], None)));
    Top([] + [12, 13], [12], 13);
    NewStep(w, 10, 11, [], {} + {0}, Some(Walker(13, [12], None)));
    Top([12] + [14, 15], [12, 14], 15);
    NewStep(w, 10, 13, [12], {} + {0} + {10}, Some(Walker(15, [12, 14], None)));
    Top([12, 14] + [12, 13], [12, 14, 12], 13);
    NewStep(w, 10, 15, [12, 14], {} + {0} + {10} + {2}, Some(Walker(13, [12, 14, 12], None)));
    ghost var seen := {} + {0} + {10} + {2} + {1};
    Top([12, 14, 12], [12, 14], 12);
    OldStep(w, 10, 13, [12, 14, 12], seen, Some(Walker(12, [12, 14], None)));
    Top([12, 14] + [], [12], 14);
    NewStep(w, 10, 12, [12, 14], seen, Some(Walker(14, [12], None)));
    Top([12] + [], [], 12);
    NewStep(w, 10, 14, [12], seen + {4}, Some(Walker(12, [], None)));
    LastOld(w, 12, seen + {4} + {3});
  }

  /** With one argument, a definition for position 0 ranks by how early it is found. */
  lemma RankOf(w: World, walk: seq<int>, d: int, k: nat)
    requires k < |walk| <= 31 && HasRole(w, walk[k], d, 0) && (forall j | 0 <= j < k :: !HasRole(w, walk[j], d, 0)) && w.positions(d) == {0}
    ensures Applicable(w, [walk], d) && Rank(w, [walk], d) == (31 - k) * 33554432
  {
    FirstFoundIs(w, walk, d, 0, k);
    assert forall p: nat :: p in FoundAt(w, [walk], d, End([walk])) <==> p == 0;
    assert Digits(w, [walk], d, End([walk])) == [31 - k, 0, 0, 0, 0, 0];
  }

  lemma RolesAre(w: World)
    requires w == View(Sharing(), 0) || w == View(Defined(), 0)
    ensures RolesOk(w)
  {
    forall m, d ensures HasRole(w, m, d, 0) <==> (m == 3 || m == 4) && d == 100 + m {
      if (m == 3 || m == 4) && d == 100 + m {
        assert w.roles(m)[0] == Role({0}, d);
      }
    }
  }

  lemma OnlyThese(w: World, walk: seq<int>, d: int)
    requires (forall m, e :: HasRole(w, m, e, 0) <==> (m == 3 || m == 4) && e == 100 + m) && w.positions(d) == {0}
    ensures Applicable(w, [walk], d) ==> d == 103 || d == 104
  {
    hide HasRole;
    if Applicable(w, [walk], d) {
      assert 0 in FoundAt(w, [walk], d, End([walk]));
      assert HasRole(w, walk[FirstFound(w, walk, d, 0)], d, 0);
    }
  }

  lemma SharingOk()
    ensures MemoryOk(Sharing())
  {
    var mem := Sharing();
    forall s ensures WellFormed(View(mem, s)) && Masked(View(mem, s), mem.masks(s)) {
    }
  }

  /** The entry for selector 0 and object 10 is right, and the definition of selector 1, which does not flush it, makes it wrong. */
  lemma AnotherSelectorsDefinition(e: Entry)
    requires e.selector == Some(0) && e.def == 103 && |e.maps| == METHOD_CACHE_ARITY && e.maps[0] == 0
    ensures MemoryOk(Sharing()) && !Undisturbed(Sharing(), 11) && Right(Sharing(), e) && !Right(Defined(), e)
  {
    hide IsBest, RightFor, Walks;
    SharingOk();
    BestBefore();
    assert Stored(Sharing(), [10], e.maps) == e.maps;
    SavedIsRight(Sharing(), 0, [10], e.maps, 103);
    NotAfter();
    MetInside();
    WrongFor(Defined(), e.maps);
  }

  lemma WrongFor(mem: Memory, maps: seq<int>)
    requires !IsBest(View(mem, 0), Walks(View(mem, 0), [10]), 103) && mem.masks(0) == {0} && |maps| > 0 && mem.mapOf(10) == maps[0]
    requires BoundedWalk(View(mem, 0), 10)
    ensures !RightFor(mem, 0, maps, 103)
  {
    hide IsBest, Walks, BoundedWalk;
    assert MapsMatch(mem.mapOf, mem.masks(0), [10], maps) && Bounded(View(mem, 0), [10]);
  }

  /** The delegates of map 1 lead to object 15, which has that map. */
  lemma MetInside()
    ensures !Undisturbed(Sharing(), 11)
  {
    var w := View(Sharing(), 0);
    assert w.mapOf(15) == w.mapOf(11) == 1;
    assert IsChain(w, [13, 15]);
    assert Below(w, w.delegates(1), 15) by {
      assert [13, 15][0] in w.delegates(1);
    }
  }

  ghost predicate RolesOk(w: World) {
    (forall m, d :: HasRole(w, m, d, 0) <==> (m == 3 || m == 4) && d == 100 + m) && forall d :: w.positions(d) == {0}
  }

  lemma BestBefore()
    ensures IsBest(View(Sharing(), 0), Walks(View(Sharing(), 0), [10]), 103)
  {
    var w := View(Sharing(), 0);
    ObjectsAre();
    WalkBefore(w);
    RolesAre(w);
    hide *;
    OneWalk(w, [0, 1, 2, 3, 4]);
    FirstWins(w, [0, 1, 2, 3, 4]);
  }

  lemma FirstWins(w: World, walk: seq<int>)
    requires RolesOk(w) && walk == [0, 1, 2, 3, 4]
    ensures IsBest(w, [walk], 103)
  {
    hide HasRole, Applicable, Rank;
    RankOf(w, walk, 103, 3);
    RankOf(w, walk, 104, 4);
    forall d | Applicable(w, [walk], d) ensures d == 103 || d == 104 {
      OnlyThese(w, walk, d);
    }
  }

  lemma NotAfter()
    ensures !IsBest(View(Defined(), 0), Walks(View(Defined(), 0), [10]), 103) && BoundedWalk(View(Defined(), 0), 10)
  {
    var w := View(Defined(), 0);
    ObjectsAre();
    WalkAfter(w);
    RolesAre(w);
    hide *;
    OneWalk(w, [0, 10, 2, 1, 4, 3]);
    SecondWins(w, [0, 10, 2, 1, 4, 3]);
  }

  lemma SecondWins(w: World, walk: seq<int>)
    requires RolesOk(w) && walk == [0, 10, 2, 1, 4, 3]
    ensures !IsBest(w, [walk], 103)
  {
    hide HasRole, Applicable, Rank;
    RankOf(w, walk, 103, 5);
    RankOf(w, walk, 104, 4);
  }

  lemma OneWalk(w: World, walk: seq<int>)
    requires Visited(w, 10) == walk
    ensures Walks(w, [10]) == [walk]
  {
    hide Visited;
  }

  // ---------- exactly when another selector's entries stay right ----------

  /** The same objects, maps and delegates. */
  ghost predicate SameMemory(mem: Memory, mem1: Memory) {
    mem1.maps == mem.maps && mem1.next == mem.next && mem1.mapOf == mem.mapOf && mem1.delegates == mem.delegates && mem1.restricts == mem.restricts
  }

  /** Whatever roles there are, a right entry for selector s stays right when x gets its copy with a role for another selector. */
  ghost predicate NeverStale(mem: Memory, selector: int, s: int, x: int) {
    forall mem1: Memory, chain: seq<Role>, e: Entry |
      SameMemory(mem, mem1) && MemoryOk(mem1) && ChainOk(mem1, selector, chain) && e.selector == Some(s) && Right(mem1, e) ::
      Right(Represent(mem1, selector, x, chain), e)
  }

  /** Every walk but x's own keeps its order. */
  ghost predicate AllKeepOrder(mem: Memory, x: int) {
    forall a | a != x && BoundedWalk(View(Represent(mem, 0, x, []), 1), a) :: KeepsOrder(View(mem, 1), x, a)
  }

  lemma RepresentAlike(mem: Memory, mem1: Memory, selector: int, x: int, chain: seq<Role>, s: int, selector1: int, chain1: seq<Role>, s1: int)
    requires SameMemory(mem, mem1)
    ensures SameObjects(View(mem, s), View(mem1, s1))
    ensures SameObjects(View(Represent(mem, selector, x, chain), s), View(Represent(mem1, selector1, x, chain1), s1))
  {
  }

  /**
   * In a memory whose walks were within bounds, entries of other selectors can never be made wrong by giving x a role if
   * and only if every walk keeps its order.
   */
  lemma NeverStaleExactly(mem: Memory, selector: int, s: int, x: int)
    requires MemoryOk(mem) && s != selector && forall a | a != x && BoundedWalk(View(Represent(mem, 0, x, []), 1), a) :: BoundedWalk(View(mem, 1), a)
    ensures NeverStale(mem, selector, s, x) <==> AllKeepOrder(mem, x)
    ensures NeverStale(mem, selector, s, x) <==> Harmless(mem, x)
  {
    hide MemoryOk, ChainOk, Right, Represent, KeepsOrder, BoundedWalk, SameMemory, View, Harmless;
    HarmlessKeeps(mem, x);
    if AllKeepOrder(mem, x) {
      forall mem1: Memory, chain: seq<Role>, e: Entry |
        SameMemory(mem, mem1) && MemoryOk(mem1) && ChainOk(mem1, selector, chain) && e.selector == Some(s) && Right(mem1, e)
        ensures Right(Represent(mem1, selector, x, chain), e)
      {
        KeptStaysRight(mem, mem1, selector, s, x, chain, e);
      }
    } else {
      var a :| a != x && BoundedWalk(View(Represent(mem, 0, x, []), 1), a) && !KeepsOrder(View(mem, 1), x, a);
      var mem1, e := LostGoesStale(mem, selector, s, x, a);
      NothingIsOk(mem1, selector);
    }
  }

  lemma HarmlessKeeps(mem: Memory, x: int)
    requires forall a | a != x && BoundedWalk(View(Represent(mem, 0, x, []), 1), a) :: BoundedWalk(View(mem, 1), a)
    ensures Harmless(mem, x) <==> AllKeepOrder(mem, x)
  {
    hide Represent, KeepsOrder, View, Visited, Fits;
  }

  lemma NothingIsOk(mem: Memory, selector: int)
    ensures ChainOk(mem, selector, [])
  {
  }

  lemma KeptStaysRight(mem: Memory, mem1: Memory, selector: int, s: int, x: int, chain: seq<Role>, e: Entry)
    requires AllKeepOrder(mem, x) && s != selector
    requires forall a | a != x && BoundedWalk(View(Represent(mem, 0, x, []), 1), a) :: BoundedWalk(View(mem, 1), a)
    requires SameMemory(mem, mem1) && MemoryOk(mem1) && ChainOk(mem1, selector, chain) && e.selector == Some(s) && Right(mem1, e)
    ensures Right(Represent(mem1, selector, x, chain), e)
  {
    hide MemoryOk, ChainOk, Right, Represent, KeepsOrder, Visited, Fits, SameMemory, View, SameObjects;
    var w, w' := View(mem1, s), View(Represent(mem1, selector, x, chain), s);
    var u, u' := View(mem, 1), View(Represent(mem, 0, x, []), 1);
    RepresentAlike(mem, mem1, 0, x, [], 1, selector, chain, s);
    forall a | a != x && BoundedWalk(w', a) ensures KeepsOrder(w, x, a) && Fits(w, a) {
      AlikeObjects(u, w, x, a);
      AlikeObjects(u', w', x, a);
      assert BoundedWalk(u', a) && BoundedWalk(u, a);
    }
    OthersStayRight(mem1, selector, x, chain, e);
  }

  /** The memory with the rivals' roles for selector s and none for any other. */
  function WithRivals(mem: Memory, s: int, rival: World, p1: nat): Memory {
    mem.(roles := (t: int) => if t == s then rival.roles else ((n: int) => []),
         positions := rival.positions,
         masks := (t: int) => if p1 == 0 then {0} else {0, p1})
  }

  lemma LostGoesStale(mem: Memory, selector: int, s: int, x: int, a: int) returns (mem1: Memory, e: Entry)
    requires MemoryOk(mem) && s != selector && a != x && !KeepsOrder(View(mem, 1), x, a)
    requires BoundedWalk(View(mem, 1), a) && BoundedWalk(View(Represent(mem, 0, x, []), 1), a)
    ensures SameMemory(mem, mem1) && MemoryOk(mem1) && e.selector == Some(s) && Right(mem1, e)
    ensures !Right(Represent(mem1, selector, x, []), e)
  {
    hide *;
    var w, w' := View(mem, 1), View(Represent(mem, 0, x, []), 1);
    SplitView(mem, 0, x, [], 1);
    BoundedIs(w, a);
    BoundedIs(w', a);
    var args, at1, p1, at2 := OrderMatters.OrderMatters(w, w', x, a);
    RivalsSay(mem, x, a, args, at1, p1, at2);
    var u := Rival(w, at1, p1, at2, mem.mapOf(x), mem.next);
    mem1 := WithRivals(mem, s, u, p1);
    RivalsMemoryOk(mem, s, x, at1, p1, at2, mem.mapOf(x), mem.next);
    RivalView(mem, s, u, p1, at1, at2, mem.mapOf(x), mem.next);
    e := Entry(Some(s), 1, Stored(mem1, args, [0, 0, 0, 0, 0, 0]));
    RivalCovered(mem, s, u, p1, |args|);
    SavedIsRight(mem1, s, args, [0, 0, 0, 0, 0, 0], 1);
    GoesWrong(mem, mem1, selector, s, x, a, args, at1, p1, at2);
    RightIs(mem1, e);
    RightIs(Represent(mem1, selector, x, []), e);
  }

  lemma BoundedIs(w: World, a: int)
    requires BoundedWalk(w, a)
    ensures |Visited(w, a)| <= 31
  {
  }

  lemma RightIs(mem: Memory, e: Entry)
    requires e.selector.Some?
    ensures Right(mem, e) <==> RightFor(mem, e.selector.value, e.maps, e.def)
  {
  }

  lemma RivalCovered(mem: Memory, s: int, u: World, p1: nat, arity: nat)
    requires p1 < arity
    ensures Covered(WithRivals(mem, s, u, p1).masks(s), arity)
  {
  }

  lemma RivalsSay(mem: Memory, x: int, a: int, args: seq<int>, at1: int, p1: nat, at2: Option<int>)
    requires Rivals(View(mem, 1), View(Represent(mem, 0, x, []), 1), x, a, args, at1, p1, at2)
    ensures 0 < |args| <= 2 && p1 < |args| && (forall i | 0 <= i < |args| :: args[i] == a)
    ensures var u := Rival(View(mem, 1), at1, p1, at2, mem.mapOf(x), mem.next); IsBest(u, Walks(u, args), 1)
    ensures var u' := Rival(View(Represent(mem, 0, x, []), 1), at1, p1, at2, mem.mapOf(x), mem.next); !IsBest(u', Walks(u', args), 1)
  {
    hide IsBest, Walks, Rival, WellFormed, SharedMaps.Split;
  }

  lemma RivalView(mem: Memory, s: int, u: World, p1: nat, at1: int, at2: Option<int>, m: int, c: int)
    requires u == Rival(View(mem, 1), at1, p1, at2, m, c)
    ensures View(WithRivals(mem, s, u, p1), s) == u && SameMemory(mem, WithRivals(mem, s, u, p1))
    ensures WithRivals(mem, s, u, p1).mapOf == mem.mapOf && WithRivals(mem, s, u, p1).masks(s) == (if p1 == 0 then {0} else {0, p1})
  {
  }

  lemma RivalsMemoryOk(mem: Memory, s: int, x: int, at1: int, p1: nat, at2: Option<int>, m: int, c: int)
    requires MemoryOk(mem) && p1 <= 1
    ensures MemoryOk(WithRivals(mem, s, Rival(View(mem, 1), at1, p1, at2, m, c), p1))
  {
    var mem1 := WithRivals(mem, s, Rival(View(mem, 1), at1, p1, at2, m, c), p1);
    assert WellFormed(View(mem, 1));
    forall t ensures WellFormed(View(mem1, t)) && Masked(View(mem1, t), mem1.masks(t)) {
    }
  }

  /** With x's copy, the arguments hit the entry, and its definition is not best any more. */
  lemma GoesWrong(mem: Memory, mem1: Memory, selector: int, s: int, x: int, a: int, args: seq<int>, at1: int, p1: nat, at2: Option<int>)
    requires MemoryOk(mem) && s != selector && a != x && BoundedWalk(View(Represent(mem, 0, x, []), 1), a)
    requires Rivals(View(mem, 1), View(Represent(mem, 0, x, []), 1), x, a, args, at1, p1, at2)
    requires mem1 == WithRivals(mem, s, Rival(View(mem, 1), at1, p1, at2, mem.mapOf(x), mem.next), p1)
    requires mem1.mapOf == mem.mapOf && mem1.masks(s) == (if p1 == 0 then {0} else {0, p1})
    ensures !RightFor(Represent(mem1, selector, x, []), s, Stored(mem1, args, [0, 0, 0, 0, 0, 0]), 1)
  {
    hide *;
    var w' := View(Represent(mem, 0, x, []), 1);
    var u' := Rival(w', at1, p1, at2, mem.mapOf(x), mem.next);
    var v := View(Represent(mem1, selector, x, []), s);
    RivalsSay(mem, x, a, args, at1, p1, at2);
    RivalAgain(mem, mem1, selector, s, x, at1, p1, at2);
    AlikeBest(u', v, args, 1);
    AlikeBounded(w', u', v, x, a);
    WrongNow(mem, mem1, selector, s, x, a, args, p1);
  }

  lemma AlikeBounded(w: World, u: World, v: World, x: int, a: int)
    requires SameObjects(w, u) && SameObjects(u, v) && BoundedWalk(w, a)
    ensures BoundedWalk(v, a)
  {
    hide Visited, Fits, SameObjects, KeepsOrder;
    AlikeObjects(w, u, x, a);
    AlikeObjects(u, v, x, a);
  }

  lemma WrongNow(mem: Memory, mem1: Memory, selector: int, s: int, x: int, a: int, args: seq<int>, p1: nat)
    requires 0 < |args| <= 2 && p1 < |args| && (forall i | 0 <= i < |args| :: args[i] == a) && a != x
    requires mem1.mapOf == mem.mapOf && mem1.masks(s) == (if p1 == 0 then {0} else {0, p1})
    requires var v := View(Represent(mem1, selector, x, []), s); BoundedWalk(v, a) && !IsBest(v, Walks(v, args), 1)
    ensures !RightFor(Represent(mem1, selector, x, []), s, Stored(mem1, args, [0, 0, 0, 0, 0, 0]), 1)
  {
    hide IsBest, Walks, BoundedWalk;
    var mem2, maps := Represent(mem1, selector, x, []), Stored(mem1, args, [0, 0, 0, 0, 0, 0]);
    assert MapsMatch(mem2.mapOf, mem2.masks(s), args, maps) && Bounded(View(mem2, s), args);
  }

  lemma RivalAgain(mem: Memory, mem1: Memory, selector: int, s: int, x: int, at1: int, p1: nat, at2: Option<int>)
    requires MemoryOk(mem) && s != selector
    requires mem1 == WithRivals(mem, s, Rival(View(mem, 1), at1, p1, at2, mem.mapOf(x), mem.next), p1)
    ensures var w' := View(Represent(mem, 0, x, []), 1); var u' := Rival(w', at1, p1, at2, mem.mapOf(x), mem.next);
      var v := View(Represent(mem1, selector, x, []), s);
      SameObjects(w', u') && SameObjects(u', v) && u'.positions == v.positions && forall n :: u'.roles(n) == v.roles(n)
  {
    MapKnown(mem, x);
    NextUnused(mem);
  }
}

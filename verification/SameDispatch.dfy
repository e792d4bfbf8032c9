/** What dispatch depends on: the maps of the arguments at the positions the selector's definitions dispatch on, and nothing else. */
module SameDispatch {
  import opened Wrappers
  import opened Delegation
  import opened Ranking
  import opened Dispatching

  /** How far along the walk of argument p the definition is found there; None when it is not. */
  function Depth(w: World, walks: seq<seq<int>>, d: int, p: nat): Option<nat> {
    if p < |walks| && FirstFound(w, walks[p], d, p) < |walks[p]| then Some(FirstFound(w, walks[p], d, p)) else None
  }

  ghost predicate SameDepths(w: World, walks: seq<seq<int>>, w': World, walks': seq<seq<int>>) {
    forall d, p: nat :: Depth(w, walks, d, p) == Depth(w', walks', d, p)
  }

  /** Two searches that find every definition equally deep have the same results. */
  lemma SameBest(w: World, walks: seq<seq<int>>, w': World, walks': seq<seq<int>>, d: int)
    requires SameDepths(w, walks, w', walks') && w.positions == w'.positions
    ensures IsBest(w, walks, d) <==> IsBest(w', walks', d)
    ensures Applicable(w, walks, d) <==> Applicable(w', walks', d)
  {
    hide FoundAt, Digits, Pack;
    forall e ensures FoundAt(w, walks, e, End(walks)) == FoundAt(w', walks', e, End(walks')) {
      SameFound(w, walks, w', walks', e);
    }
    forall e ensures Digits(w, walks, e, End(walks)) == Digits(w', walks', e, End(walks')) {
      SameDigits(w, walks, w', walks', e);
    }
    assert forall e :: Applicable(w, walks, e) <==> Applicable(w', walks', e);
    assert forall e :: Rank(w, walks, e) == Rank(w', walks', e);
  }

  lemma SameFound(w: World, walks: seq<seq<int>>, w': World, walks': seq<seq<int>>, d: int)
    requires SameDepths(w, walks, w', walks')
    ensures FoundAt(w, walks, d, End(walks)) == FoundAt(w', walks', d, End(walks'))
  {
    forall p: nat ensures p in FoundAt(w, walks, d, End(walks)) <==> p in FoundAt(w', walks', d, End(walks')) {
      assert Depth(w, walks, d, p) == Depth(w', walks', d, p);
    }
  }

  lemma SameDigits(w: World, walks: seq<seq<int>>, w': World, walks': seq<seq<int>>, d: int)
    requires SameDepths(w, walks, w', walks')
    ensures Digits(w, walks, d, End(walks)) == Digits(w', walks', d, End(walks'))
  {
    forall p: nat ensures Digit(w, walks, d, p, End(walks)) == Digit(w', walks', d, p, End(walks')) {
      assert Depth(w, walks, d, p) == Depth(w', walks', d, p);
    }
  }

  // ---------- the same maps ----------

  /** The walk only asks whether it is at the argument itself, and it never comes back there to anything new. */
  lemma {:induction false} SameWalk(w: World, a: int, b: int, k: Option<Walker>, seen: set<int>)
    requires w.mapOf(a) == w.mapOf(b) && w.mapOf(a) in seen
    ensures Walk(w, a, k, seen) == Walk(w, b, k, seen)
    decreases w.maps - seen, if k.Some? then |k.value.stack| + 1 else 0
  {
    if k.Some? {
      var m := w.mapOf(k.value.arg);
      if m in seen || m !in w.maps {
        SameWalk(w, a, b, Pop(k.value.stack, k.value.restricted), seen);
      } else {
        assert k.value.arg != a && k.value.arg != b;
        var r := Restriction(w, a, k.value);
        assert r == Restriction(w, b, k.value);
        Fewer(w.maps, seen, m);
        SameWalk(w, a, b, Pop(Pushed(w, k.value, r), r), seen + {m});
      }
    }
  }

  /** Arguments of one map are walked alike. */
  lemma SameMapSameWalk(w: World, a: int, b: int)
    requires WellFormed(w) && w.mapOf(a) == w.mapOf(b)
    ensures Visited(w, a) == Visited(w, b)
  {
    hide Walk;
    FirstStep(w, a);
    FirstStep(w, b);
    SameWalk(w, a, b, Pop(w.delegates(w.mapOf(a)), None), {w.mapOf(a)});
  }

  lemma FirstStep(w: World, a: int)
    requires WellFormed(w)
    ensures Visited(w, a) == [w.mapOf(a)] + Walk(w, a, Pop(w.delegates(w.mapOf(a)), None), {w.mapOf(a)})
  {
    var k := Walker(a, [], None);
    assert Restriction(w, a, k) == None;
    assert Pushed(w, k, None) == w.delegates(w.mapOf(a));
    assert {} + {w.mapOf(a)} == {w.mapOf(a)};
  }

  /** No role of the selector is for a position outside the mask. */
  ghost predicate Masked(w: World, mask: set<nat>) {
    forall m, k | m in w.maps && 0 <= k < |w.roles(m)| :: w.roles(m)[k].positions <= mask
  }

  predicate Covered(mask: set<nat>, arity: nat) {
    forall p | p in mask :: p < arity
  }

  /** The arguments' maps at the positions of the mask. */
  predicate MapsMatch(mapOf: int -> int, mask: set<nat>, args: seq<int>, maps: seq<int>) {
    Covered(mask, |args|) && forall p | p in mask :: p < |maps| && mapOf(args[p]) == maps[p]
  }

  lemma NotOutside(w: World, mask: set<nat>, args: seq<int>, d: int, p: nat)
    requires WellFormed(w) && Masked(w, mask) && p !in mask
    ensures Depth(w, Walks(w, args), d, p) == None
  {
    if p < |args| {
      WalkDistinct(w, args[p], Some(Walker(args[p], [], None)), {});
      var walk := Visited(w, args[p]);
      forall i | 0 <= i < |walk| ensures !HasRole(w, walk[i], d, p) {
        assert walk[i] in w.maps;
      }
      assert FirstFound(w, walk, d, p) == |walk|;
    }
  }

  /** Positions outside the mask cannot affect the result of a dispatch. */
  lemma MaskDecides(w: World, mask: set<nat>, args: seq<int>, args': seq<int>, maps: seq<int>, d: int)
    requires WellFormed(w) && Masked(w, mask) && MapsMatch(w.mapOf, mask, args, maps) && MapsMatch(w.mapOf, mask, args', maps)
    ensures IsBest(w, Walks(w, args), d) <==> IsBest(w, Walks(w, args'), d)
  {
    hide Depth, Visited, IsBest, WellFormed, Masked;
    forall e, p: nat ensures Depth(w, Walks(w, args), e, p) == Depth(w, Walks(w, args'), e, p) {
      if p in mask {
        SameMapSameWalk(w, args[p], args'[p]);
        DepthAt(w, args, e, p);
        DepthAt(w, args', e, p);
      } else {
        NotOutside(w, mask, args, e, p);
        NotOutside(w, mask, args', e, p);
      }
    }
    SameBest(w, Walks(w, args), w, Walks(w, args'), d);
  }

  lemma DepthAt(w: World, args: seq<int>, d: int, p: nat)
    requires p < |args|
    ensures Depth(w, Walks(w, args), d, p) == Depth(w, seq(p + 1, i => Visited(w, args[p])), d, p)
  {
  }

  // ---------- the same finds ----------

  lemma SameFirst(w: World, walk: seq<int>, w': World, walk': seq<int>, d: int, p: nat)
    requires |walk| == |walk'| && forall i | 0 <= i < |walk| :: HasRole(w, walk[i], d, p) <==> HasRole(w', walk'[i], d, p)
    ensures FirstFound(w, walk, d, p) == FirstFound(w', walk', d, p)
  {
    hide HasRole;
    var f, f' := FirstFound(w, walk, d, p), FirstFound(w', walk', d, p);
    if f < |walk| {
      FirstAtMost(w', walk', d, p, f);
    }
    if f' < |walk'| {
      FirstAtMost(w, walk, d, p, f');
    }
  }

  lemma FirstAtMost(w: World, walk: seq<int>, d: int, p: nat, i: nat)
    requires i < |walk| && HasRole(w, walk[i], d, p)
    ensures FirstFound(w, walk, d, p) <= i
  {
  }
}

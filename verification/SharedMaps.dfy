/** Giving an object a copy of a map that others share: when the walks keep their order, and what follows for dispatch. */
module SharedMaps {
  import opened Wrappers
  import opened Delegation
  import opened Ranking
  import opened Dispatching
  import opened SameDispatch

  /** In w' the object x has a fresh copy of its map; other objects of that map keep it. */
  ghost predicate Split(w: World, w': World, x: int) {
    var m, c := w.mapOf(x), w'.mapOf(x);
    && c !in w.maps && w'.maps == w.maps + {c} && w'.positions == w.positions
    && (forall o | o != x :: w'.mapOf(o) == w.mapOf(o))
    && (forall n | n in w.maps :: w'.delegates(n) == w.delegates(n) && w'.restricts(n) == w.restricts(n) && w'.roles(n) == w.roles(n))
    && w'.delegates(c) == w.delegates(m) && w'.restricts(c) == w.restricts(m) && w'.roles(c) == w.roles(m)
  }

  /** A place in a walk: where it is, and what it has seen. */
  datatype Place = Place(at: Walker, seen: set<int>)

  /**
   * Where a walk that has come to the map of x by x itself comes to another object of that map, or the other way round.
   * The map is old then, and its delegates are not pushed again; with a copy for x they would be.
   */
  function SecondMeeting(w: World, x: int, first: int, k: Option<Walker>, seen: set<int>, byX: Option<bool>): Option<Place>
    decreases w.maps - seen, if k.Some? then |k.value.stack| + 1 else 0
  {
    if k.None? then None
    else
      var n := w.mapOf(k.value.arg);
      if n in seen || n !in w.maps then
        if n == w.mapOf(x) && byX.Some? && byX.value != (k.value.arg == x) then Some(Place(k.value, seen))
        else SecondMeeting(w, x, first, Pop(k.value.stack, k.value.restricted), seen, byX)
      else
        var r := Restriction(w, first, k.value);
        Delegation.Fewer(w.maps, seen, n);
        SecondMeeting(w, x, first, Pop(Pushed(w, k.value, r), r), seen + {n}, if n == w.mapOf(x) then Some(k.value.arg == x) else byX)
  }

  /** The rest of the walk from a place, with the delegates of the map pushed again and without. */
  function Again(w: World, first: int, p: Place): seq<int> {
    var r := Restriction(w, first, p.at);
    Walk(w, first, Pop(Pushed(w, p.at, r), r), p.seen)
  }

  function GoesOn(w: World, first: int, p: Place): seq<int> {
    Walk(w, first, Pop(p.at.stack, p.at.restricted), p.seen)
  }

  /** Pushing the delegates once more where the map is met again would not change the walk. It can be asked before x gets its copy. */
  predicate KeepsOrder(w: World, x: int, a: int) {
    var p := SecondMeeting(w, x, a, Some(Walker(a, [], None)), {}, None);
    p.Some? ==> Again(w, a, p.value) == GoesOn(w, a, p.value)
  }

  /** A walk with the copy c taken for the map m, and m only where it comes first. */
  function Collapsed(walk: seq<int>, m: int, c: int, met: bool): seq<int> {
    if walk == [] then []
    else if walk[0] == m || walk[0] == c then (if met then [] else [m]) + Collapsed(walk[1..], m, c, true)
    else [walk[0]] + Collapsed(walk[1..], m, c, met)
  }

  lemma CollapsedMore(n: int, rest: seq<int>, m: int, c: int, met: bool)
    ensures Collapsed([n] + rest, m, c, met) ==
      if n == m || n == c then (if met then [] else [m]) + Collapsed(rest, m, c, true) else [n] + Collapsed(rest, m, c, met)
  {
    assert ([n] + rest)[1..] == rest;
  }

  lemma {:induction false} CollapsedSame(walk: seq<int>, m: int, c: int, met: bool)
    requires m !in walk && c !in walk
    ensures Collapsed(walk, m, c, met) == walk
  {
    if walk != [] {
      CollapsedSame(walk[1..], m, c, met);
      assert walk == [walk[0]] + walk[1..];
    }
  }

  /** What has been seen in w' is what has been seen in w; of the map and its copy, what has been met. */
  ghost predicate SeenSplit(seen: set<int>, seen': set<int>, m: int, c: int, byX: Option<bool>) {
    && (forall n | n != m && n != c :: n in seen <==> n in seen')
    && (m in seen <==> byX.Some?) && (c in seen' <==> byX == Some(true)) && (m in seen' <==> byX == Some(false))
  }

  lemma SplitMaps(w: World, w': World, x: int, o: int)
    requires WellFormed(w) && Split(w, w', x)
    ensures var n, n' := w.mapOf(o), w'.mapOf(o);
      && n in w.maps && n' in w'.maps && n' == (if o == x then w'.mapOf(x) else n)
      && w'.delegates(n') == w.delegates(n) && w'.restricts(n') == w.restricts(n)
  {
  }

  lemma SameStep(w: World, w': World, x: int, first: int, k: Walker)
    requires WellFormed(w) && Split(w, w', x)
    ensures Restriction(w', first, k) == Restriction(w, first, k)
    ensures forall r :: Pushed(w', k, r) == Pushed(w, k, r)
  {
    SplitMaps(w, w', x, k.arg);
  }

  /** Once both the map and its copy have been met, the walks are the same. */
  lemma {:induction false} BothMet(w: World, w': World, x: int, first: int, k: Option<Walker>, seen: set<int>, seen': set<int>)
    requires WellFormed(w) && Split(w, w', x) && w.mapOf(x) in seen && w'.mapOf(x) !in seen
    requires seen' == seen + {w'.mapOf(x)}
    ensures Walk(w', first, k, seen') == Walk(w, first, k, seen)
    ensures w.mapOf(x) !in Walk(w, first, k, seen) && w'.mapOf(x) !in Walk(w, first, k, seen)
    decreases w.maps - seen, if k.Some? then |k.value.stack| + 1 else 0
  {
    if k.Some? {
      var n, n' := w.mapOf(k.value.arg), w'.mapOf(k.value.arg);
      SplitMaps(w, w', x, k.value.arg);
      if n in seen {
        BothMet(w, w', x, first, Pop(k.value.stack, k.value.restricted), seen, seen');
      } else {
        var r := Restriction(w, first, k.value);
        SameStep(w, w', x, first, k.value);
        Delegation.Fewer(w.maps, seen, n);
        assert seen' + {n} == seen + {n} + {w'.mapOf(x)};
        BothMet(w, w', x, first, Pop(Pushed(w, k.value, r), r), seen + {n}, seen' + {n});
      }
    }
  }

  /**
   * Up to the second meeting the walks are the same but for the name of the copy. There the walk in w' pushes the
   * delegates again, and the one in w does not.
   */
  lemma {:induction false} SameUntilMet(w: World, w': World, x: int, first: int, k: Option<Walker>, seen: set<int>, seen': set<int>, byX: Option<bool>)
    returns (before: seq<int>)
    requires WellFormed(w) && Split(w, w', x) && SeenSplit(seen, seen', w.mapOf(x), w'.mapOf(x), byX) && w'.mapOf(x) !in seen
    ensures var p := SecondMeeting(w, x, first, k, seen, byX); var m, c := w.mapOf(x), w'.mapOf(x);
      && Walk(w, first, k, seen) == before + (if p.Some? then GoesOn(w, first, p.value) else [])
      && Collapsed(Walk(w', first, k, seen'), m, c, byX.Some?) == before + (if p.Some? then Again(w, first, p.value) else [])
    decreases w.maps - seen, if k.Some? then |k.value.stack| + 1 else 0
  {
    hide Walk, SecondMeeting, Collapsed, Again, GoesOn, WellFormed, Split, Restriction, Pushed, Pop;
    var m, c := w.mapOf(x), w'.mapOf(x);
    before := [];
    MeetingStep(w, x, first, k, seen, byX);
    if k.None? {
      NoWalk(w, w', first, seen, seen', m, c, byX.Some?);
    } else {
      var arg := k.value.arg;
      var n, n' := w.mapOf(arg), w'.mapOf(arg);
      SplitMaps(w, w', x, arg);
      SplitCopy(w, w', x);
      SameStep(w, w', x, first, k.value);
      var r := Restriction(w, first, k.value);
      if n in seen {
        var next := Pop(k.value.stack, k.value.restricted);
        WalkSkips(w, first, k.value, seen);
        PopShorter(k.value.stack, k.value.restricted);
        if n == m && byX.value != (arg == x) {
          AtSecondMeeting(w, w', x, first, k.value, seen, seen', byX.value);
          GoesOnIs(w, first, k.value, seen);
        } else {
          before := SameUntilMet(w, w', x, first, next, seen, seen', byX);
          assert n' in seen';
          WalkSkips(w', first, k.value, seen');
        }
      } else {
        var next := Pop(Pushed(w, k.value, r), r);
        var byX' := if n == m then Some(arg == x) else byX;
        Delegation.Fewer(w.maps, seen, n);
        var rest := SameUntilMet(w, w', x, first, next, seen + {n}, seen' + {n'}, byX');
        before := [n] + rest;
        OneStep(w, first, k.value, seen, next);
        OneStep(w', first, k.value, seen', next);
        CollapsedMore(n', Walk(w', first, next, seen' + {n'}), m, c, byX.Some?);
        Prepended(n, rest, SecondMeeting(w, x, first, next, seen + {n}, byX'), w, first);
      }
    }
  }

  lemma PopShorter(stack: seq<int>, restricted: Option<nat>)
    ensures var k := Pop(stack, restricted); k.Some? ==> |k.value.stack| < |stack|
  {
  }

  lemma SplitCopy(w: World, w': World, x: int)
    requires WellFormed(w) && Split(w, w', x)
    ensures w.mapOf(x) in w.maps && w'.mapOf(x) !in w.maps
  {
  }

  lemma GoesOnIs(w: World, first: int, k: Walker, seen: set<int>)
    ensures [] + GoesOn(w, first, Place(k, seen)) == Walk(w, first, Pop(k.stack, k.restricted), seen)
  {
  }

  lemma NoWalk(w: World, w': World, first: int, seen: set<int>, seen': set<int>, m: int, c: int, met: bool)
    ensures Walk(w, first, None, seen) == [] && Collapsed(Walk(w', first, None, seen'), m, c, met) == []
  {
  }

  lemma MeetingStep(w: World, x: int, first: int, k: Option<Walker>, seen: set<int>, byX: Option<bool>)
    ensures SecondMeeting(w, x, first, k, seen, byX) ==
      if k.None? then None
      else
        var n := w.mapOf(k.value.arg);
        if n in seen || n !in w.maps then
          if n == w.mapOf(x) && byX.Some? && byX.value != (k.value.arg == x) then Some(Place(k.value, seen))
          else SecondMeeting(w, x, first, Pop(k.value.stack, k.value.restricted), seen, byX)
        else
          var r := Restriction(w, first, k.value);
          SecondMeeting(w, x, first, Pop(Pushed(w, k.value, r), r), seen + {n}, if n == w.mapOf(x) then Some(k.value.arg == x) else byX)
  {
  }

  lemma Prepended(n: int, rest: seq<int>, p: Option<Place>, w: World, first: int)
    ensures [n] + (rest + (if p.Some? then GoesOn(w, first, p.value) else [])) == [n] + rest + (if p.Some? then GoesOn(w, first, p.value) else [])
    ensures [n] + (rest + (if p.Some? then Again(w, first, p.value) else [])) == [n] + rest + (if p.Some? then Again(w, first, p.value) else [])
  {
  }

  lemma OneStep(w: World, first: int, k: Walker, seen: set<int>, next: Option<Walker>)
    requires w.mapOf(k.arg) in w.maps && w.mapOf(k.arg) !in seen
    requires var r := Restriction(w, first, k); next == Pop(Pushed(w, k, r), r)
    ensures Walk(w, first, Some(k), seen) == [w.mapOf(k.arg)] + Walk(w, first, next, seen + {w.mapOf(k.arg)})
  {
  }

  lemma AtSecondMeeting(w: World, w': World, x: int, first: int, k: Walker, seen: set<int>, seen': set<int>, byX: bool)
    requires WellFormed(w) && Split(w, w', x) && SeenSplit(seen, seen', w.mapOf(x), w'.mapOf(x), Some(byX)) && w'.mapOf(x) !in seen
    requires w.mapOf(k.arg) == w.mapOf(x) && byX != (k.arg == x)
    ensures Collapsed(Walk(w', first, Some(k), seen'), w.mapOf(x), w'.mapOf(x), true) == [] + Again(w, first, Place(k, seen))
  {
    var m, c, n' := w.mapOf(x), w'.mapOf(x), w'.mapOf(k.arg);
    SplitMaps(w, w', x, k.arg);
    SameStep(w, w', x, first, k);
    var r := Restriction(w, first, k);
    var next := Pop(Pushed(w, k, r), r);
    OneStep(w', first, k, seen', next);
    assert seen' + {n'} == seen + {c} by {
      forall n ensures n in seen' + {n'} <==> n in seen + {c} {
        assert n != m && n != c ==> (n in seen <==> n in seen');
      }
    }
    BothMet(w, w', x, first, next, seen, seen' + {n'});
    CollapsedMore(n', Walk(w', first, next, seen' + {n'}), m, c, true);
    CollapsedSame(Walk(w, first, next, seen), m, c, true);
  }

  /** The walk in w' is the one in w, the copy taken for the map, if and only if pushing the delegates again would not have changed that one. */
  lemma OrderKeptExactly(w: World, w': World, x: int, a: int)
    requires WellFormed(w) && Split(w, w', x)
    ensures Collapsed(Visited(w', a), w.mapOf(x), w'.mapOf(x), false) == Visited(w, a) <==> KeepsOrder(w, x, a)
  {
    hide Walk, SecondMeeting, Again, GoesOn, Collapsed;
    var before := SameUntilMet(w, w', x, a, Some(Walker(a, [], None)), {}, {}, None);
    var p := SecondMeeting(w, x, a, Some(Walker(a, [], None)), {}, None);
    if p.Some? {
      SameFront(before, Again(w, a, p.value), GoesOn(w, a, p.value));
    }
  }

  lemma SameFront(a: seq<int>, b: seq<int>, c: seq<int>)
    ensures a + b == a + c <==> b == c
  {
    if a + b == a + c {
      assert b == (a + b)[|a|..] == (a + c)[|a|..] == c;
    }
  }

  // ---------- dispatch asks only for the order ----------

  /** Of two definitions the one found first in the one walk is the one found first in the other; and they are found in both or in neither. */
  lemma {:induction false} OrderOfCollapsed(w: World, walk: seq<int>, m: int, c: int, met: bool, d: int, e: int, p: nat)
    requires (HasRole(w, c, d, p) <==> HasRole(w, m, d, p)) && (HasRole(w, c, e, p) <==> HasRole(w, m, e, p))
    requires met ==> !HasRole(w, m, d, p) && !HasRole(w, m, e, p)
    ensures SameOrder(w, walk, Collapsed(walk, m, c, met), d, e, p)
    decreases |walk|
  {
    hide HasRole, FirstFound, SameOrder;
    if walk == [] {
      NoOrder(w, d, e, p);
    } else {
      var n, rest := walk[0], walk[1..];
      assert walk == [n] + rest;
      CollapsedMore(n, rest, m, c, met);
      if n == m || n == c {
        var cs := Collapsed(rest, m, c, true);
        assert [] + cs == cs;
        var d', e' := if HasRole(w, m, d, p) then e else d, if HasRole(w, m, e, p) then d else e;
        if !HasRole(w, m, d', p) && !HasRole(w, m, e', p) {
          OrderOfCollapsed(w, rest, m, c, true, d', e', p);
        }
        if met {
          Dropped(w, n, rest, cs, d, e, p);
        } else {
          Headed(w, n, m, rest, cs, d, e, p);
        }
      } else {
        OrderOfCollapsed(w, rest, m, c, met, d, e, p);
        SameOrderOne(w, rest, Collapsed(rest, m, c, met), d, e, p);
        Headed(w, n, n, rest, Collapsed(rest, m, c, met), d, e, p);
      }
    }
  }

  lemma NoOrder(w: World, d: int, e: int, p: nat)
    ensures SameOrder(w, [], [], d, e, p)
  {
  }

  lemma SameOrderOne(w: World, walk: seq<int>, cs: seq<int>, d: int, e: int, p: nat)
    requires SameOrder(w, walk, cs, d, e, p)
    ensures SameOrder(w, walk, cs, d, d, p) && SameOrder(w, walk, cs, e, e, p)
  {
    hide FirstFound;
  }

  lemma Headed(w: World, n: int, h: int, rest: seq<int>, cs: seq<int>, d: int, e: int, p: nat)
    requires (HasRole(w, n, d, p) <==> HasRole(w, h, d, p)) && (HasRole(w, n, e, p) <==> HasRole(w, h, e, p))
    requires !HasRole(w, h, d, p) && !HasRole(w, h, e, p) ==> SameOrder(w, rest, cs, d, e, p)
    requires HasRole(w, h, d, p) && !HasRole(w, h, e, p) ==> SameOrder(w, rest, cs, e, e, p)
    requires !HasRole(w, h, d, p) && HasRole(w, h, e, p) ==> SameOrder(w, rest, cs, d, d, p)
    ensures SameOrder(w, [n] + rest, [h] + cs, d, e, p)
  {
    hide HasRole, FirstFound;
    FirstAt(w, n, rest, d, p);
    FirstAt(w, n, rest, e, p);
    FirstAt(w, h, cs, d, p);
    FirstAt(w, h, cs, e, p);
  }

  lemma Dropped(w: World, n: int, rest: seq<int>, cs: seq<int>, d: int, e: int, p: nat)
    requires !HasRole(w, n, d, p) && !HasRole(w, n, e, p) && SameOrder(w, rest, cs, d, e, p)
    ensures SameOrder(w, [n] + rest, cs, d, e, p)
  {
    hide HasRole, FirstFound;
    FirstAt(w, n, rest, d, p);
    FirstAt(w, n, rest, e, p);
  }

  predicate SameOrder(w: World, walk: seq<int>, cs: seq<int>, d: int, e: int, p: nat) {
    && (FirstFound(w, walk, d, p) < |walk| <==> FirstFound(w, cs, d, p) < |cs|)
    && (FirstFound(w, walk, e, p) < |walk| <==> FirstFound(w, cs, e, p) < |cs|)
    && (FirstFound(w, walk, d, p) < FirstFound(w, walk, e, p) <==> FirstFound(w, cs, d, p) < FirstFound(w, cs, e, p))
    && (FirstFound(w, walk, e, p) < FirstFound(w, walk, d, p) <==> FirstFound(w, cs, e, p) < FirstFound(w, cs, d, p))
  }

  lemma FirstAt(w: World, n: int, rest: seq<int>, d: int, p: nat)
    ensures FirstFound(w, [n] + rest, d, p) == if HasRole(w, n, d, p) then 0 else 1 + FirstFound(w, rest, d, p)
    ensures FirstFound(w, rest, d, p) <= |rest|
  {
    assert ([n] + rest)[1..] == rest;
  }

  /** Every argument's walk in w', the copy taken for the map, is its walk in w. */
  ghost predicate WalksKept(w: World, w': World, x: int, args: seq<int>) {
    forall i | 0 <= i < |args| :: Collapsed(Visited(w', args[i]), w.mapOf(x), w'.mapOf(x), false) == Visited(w, args[i])
  }

  /** Depths differ, but their order does not. */
  lemma DepthOrder(w: World, w': World, x: int, args: seq<int>, d: int, e: int, p: nat)
    requires WellFormed(w) && Split(w, w', x) && WalksKept(w, w', x, args) && p < |args|
    ensures var walk, walk' := Visited(w, args[p]), Visited(w', args[p]);
      && (FirstFound(w', walk', d, p) < |walk'| <==> FirstFound(w, walk, d, p) < |walk|)
      && (FirstFound(w', walk', e, p) < |walk'| <==> FirstFound(w, walk, e, p) < |walk|)
      && (FirstFound(w', walk', d, p) < FirstFound(w', walk', e, p) <==> FirstFound(w, walk, d, p) < FirstFound(w, walk, e, p))
      && (FirstFound(w', walk', e, p) < FirstFound(w', walk', d, p) <==> FirstFound(w, walk, e, p) < FirstFound(w, walk, d, p))
  {
    hide Visited, FirstFound;
    var m, c, walk, walk' := w.mapOf(x), w'.mapOf(x), Visited(w, args[p]), Visited(w', args[p]);
    SplitMaps(w, w', x, x);
    OrderOfCollapsed(w', walk', m, c, false, d, e, p);
    VisitedKnown(w, args[p]);
    SameFirst(w, walk, w', walk, d, p);
    SameFirst(w, walk, w', walk, e, p);
  }

  lemma VisitedKnown(w: World, a: int)
    ensures forall i | 0 <= i < |Visited(w, a)| :: Visited(w, a)[i] in w.maps
  {
    WalkDistinct(w, a, Some(Walker(a, [], None)), {});
  }

  /** Digits order definitions as the order in which they are found does. */
  predicate DigitsAlike(a: seq<nat>, b: seq<nat>, a': seq<nat>, b': seq<nat>) {
    |a| == |b| == |a'| == |b'| && forall p | 0 <= p < |a| :: (a[p] < b[p] <==> a'[p] < b'[p]) && (b[p] < a[p] <==> b'[p] < a'[p])
  }

  lemma LessAlike(a: seq<nat>, b: seq<nat>, a': seq<nat>, b': seq<nat>)
    requires DigitsAlike(a, b, a', b') && Less(a, b)
    ensures Less(a', b')
  {
    var p: nat :| LessAt(a, b, p);
    forall q | 0 <= q < p ensures a'[q] == b'[q] {
      assert a[q] == a[..p][q] == b[..p][q] == b[q];
    }
    assert a'[..p] == b'[..p];
    assert LessAt(a', b', p);
  }

  lemma AlikeDigits(w: World, w': World, x: int, args: seq<int>, d: int, e: int)
    requires WellFormed(w) && Split(w, w', x) && WalksKept(w, w', x, args) && Short(Walks(w, args)) && Short(Walks(w', args))
    ensures DigitsAlike(Digits(w, Walks(w, args), d, End(Walks(w, args))), Digits(w, Walks(w, args), e, End(Walks(w, args))),
                        Digits(w', Walks(w', args), d, End(Walks(w', args))), Digits(w', Walks(w', args), e, End(Walks(w', args))))
  {
    hide Visited, FirstFound, WellFormed, Split, WalksKept;
    forall p: nat | p < POSITIONS
      ensures var walks, walks' := Walks(w, args), Walks(w', args);
        && (Digit(w, walks, d, p, End(walks)) < Digit(w, walks, e, p, End(walks)) <==>
            Digit(w', walks', d, p, End(walks')) < Digit(w', walks', e, p, End(walks')))
        && (Digit(w, walks, e, p, End(walks)) < Digit(w, walks, d, p, End(walks)) <==>
            Digit(w', walks', e, p, End(walks')) < Digit(w', walks', d, p, End(walks')))
    {
      if p < |args| {
        DepthOrder(w, w', x, args, d, e, p);
      }
    }
  }

  /** Walks that keep their order have the same best definitions. */
  lemma OrderKeepsBest(w: World, w': World, x: int, args: seq<int>, d: int)
    requires WellFormed(w) && Split(w, w', x) && WalksKept(w, w', x, args) && Short(Walks(w, args)) && Short(Walks(w', args))
    ensures IsBest(w, Walks(w, args), d) <==> IsBest(w', Walks(w', args), d)
  {
    hide Split, WalksKept, WellFormed, Walks, Applicable, Rank, Short;
    var walks, walks' := Walks(w, args), Walks(w', args);
    forall e ensures Applicable(w, walks, e) <==> Applicable(w', walks', e) {
      KeptApplicable(w, w', x, args, e);
    }
    forall e ensures Rank(w, walks, d) < Rank(w, walks, e) <==> Rank(w', walks', d) < Rank(w', walks', e) {
      KeptRanks(w, w', x, args, d, e);
    }
  }

  lemma KeptApplicable(w: World, w': World, x: int, args: seq<int>, e: int)
    requires WellFormed(w) && Split(w, w', x) && WalksKept(w, w', x, args)
    ensures Applicable(w, Walks(w, args), e) <==> Applicable(w', Walks(w', args), e)
  {
    assert w'.positions == w.positions;
    hide Split, WalksKept, WellFormed, Walks, FoundAt;
    KeptFound(w, w', x, args, e);
  }

  /** One definition ranks above another in both worlds or in neither. */
  lemma KeptRanks(w: World, w': World, x: int, args: seq<int>, d: int, e: int)
    requires WellFormed(w) && Split(w, w', x) && WalksKept(w, w', x, args) && Short(Walks(w, args)) && Short(Walks(w', args))
    ensures Rank(w, Walks(w, args), d) < Rank(w, Walks(w, args), e) <==> Rank(w', Walks(w', args), d) < Rank(w', Walks(w', args), e)
  {
    hide Split, WalksKept, WellFormed, Walks, Digits, FoundAt, Pack, Short;
    var walks, walks' := Walks(w, args), Walks(w', args);
    AlikeDigits(w, w', x, args, d, e);
    var a, b, a', b' := Digits(w, walks, d, End(walks)), Digits(w, walks, e, End(walks)), Digits(w', walks', d, End(walks')), Digits(w', walks', e, End(walks'));
    RankIsLexicographic(a, b);
    RankIsLexicographic(a', b');
    if Less(a, b) {
      LessAlike(a, b, a', b');
    }
    if Less(a', b') {
      LessAlike(a', b', a, b);
    }
  }

  lemma KeptFound(w: World, w': World, x: int, args: seq<int>, d: int)
    requires WellFormed(w) && Split(w, w', x) && WalksKept(w, w', x, args)
    ensures FoundAt(w, Walks(w, args), d, End(Walks(w, args))) == FoundAt(w', Walks(w', args), d, End(Walks(w', args)))
  {
    hide Visited, FirstFound, WellFormed, Split, WalksKept;
    forall p: nat ensures p in FoundAt(w, Walks(w, args), d, End(Walks(w, args))) <==> p in FoundAt(w', Walks(w', args), d, End(Walks(w', args))) {
      if p < |args| {
        DepthOrder(w, w', x, args, d, d, p);
      }
    }
  }

  // ---------- walks that stay within the delegation stack ----------

  /** The walk never has more on its stack than there is room for. */
  predicate StackFits(w: World, first: int, k: Option<Walker>, seen: set<int>)
    decreases w.maps - seen, if k.Some? then |k.value.stack| + 1 else 0
  {
    k.None? ||
    var n := w.mapOf(k.value.arg);
    if n in seen || n !in w.maps then StackFits(w, first, Pop(k.value.stack, k.value.restricted), seen)
    else
      var r := Restriction(w, first, k.value);
      Delegation.Fewer(w.maps, seen, n);
      |Pushed(w, k.value, r)| <= DELEGATION_STACK_SIZE && StackFits(w, first, Pop(Pushed(w, k.value, r), r), seen + {n})
  }

  predicate Fits(w: World, a: int) {
    StackFits(w, a, Some(Walker(a, [], None)), {})
  }

  lemma {:induction false} BothFit(w: World, w': World, x: int, first: int, k: Option<Walker>, seen: set<int>, seen': set<int>)
    requires WellFormed(w) && Split(w, w', x) && w.mapOf(x) in seen && w'.mapOf(x) !in seen && seen' == seen + {w'.mapOf(x)}
    ensures StackFits(w', first, k, seen') <==> StackFits(w, first, k, seen)
    decreases w.maps - seen, if k.Some? then |k.value.stack| + 1 else 0
  {
    if k.Some? {
      var n := w.mapOf(k.value.arg);
      SplitMaps(w, w', x, k.value.arg);
      if n in seen {
        BothFit(w, w', x, first, Pop(k.value.stack, k.value.restricted), seen, seen');
      } else {
        var r := Restriction(w, first, k.value);
        SameStep(w, w', x, first, k.value);
        Delegation.Fewer(w.maps, seen, n);
        assert seen' + {n} == seen + {n} + {w'.mapOf(x)};
        BothFit(w, w', x, first, Pop(Pushed(w, k.value, r), r), seen + {n}, seen' + {n});
      }
    }
  }

  /** Where the copy's walk fits, the delegates fit at the second meeting, too; and the walk without them fits if its rest does. */
  lemma {:induction false} FitsUntilMet(w: World, w': World, x: int, first: int, k: Option<Walker>, seen: set<int>, seen': set<int>, byX: Option<bool>)
    requires WellFormed(w) && Split(w, w', x) && SeenSplit(seen, seen', w.mapOf(x), w'.mapOf(x), byX) && w'.mapOf(x) !in seen
    requires StackFits(w', first, k, seen')
    ensures var p := SecondMeeting(w, x, first, k, seen, byX);
      if p.None? then StackFits(w, first, k, seen)
      else
        var r := Restriction(w, first, p.value.at); var again := Pushed(w, p.value.at, r);
        && |again| <= DELEGATION_STACK_SIZE && StackFits(w, first, Pop(again, r), p.value.seen)
        && (StackFits(w, first, Pop(p.value.at.stack, p.value.at.restricted), p.value.seen) ==> StackFits(w, first, k, seen))
    decreases w.maps - seen, if k.Some? then |k.value.stack| + 1 else 0
  {
    var m, c := w.mapOf(x), w'.mapOf(x);
    if k.Some? {
      var arg := k.value.arg;
      var n, n' := w.mapOf(arg), w'.mapOf(arg);
      SplitMaps(w, w', x, arg);
      SameStep(w, w', x, first, k.value);
      var r := Restriction(w, first, k.value);
      if n in seen {
        if n == m && byX.value != (arg == x) {
          assert seen' + {n'} == seen + {c} by {
            forall q ensures q in seen' + {n'} <==> q in seen + {c} {
              assert q != m && q != c ==> (q in seen <==> q in seen');
            }
          }
          BothFit(w, w', x, first, Pop(Pushed(w, k.value, r), r), seen, seen' + {n'});
        } else {
          assert n' in seen';
          FitsUntilMet(w, w', x, first, Pop(k.value.stack, k.value.restricted), seen, seen', byX);
        }
      } else {
        Delegation.Fewer(w.maps, seen, n);
        FitsUntilMet(w, w', x, first, Pop(Pushed(w, k.value, r), r), seen + {n}, seen' + {n'}, if n == m then Some(arg == x) else byX);
      }
    }
  }

  // ---------- when nobody else can be met ----------

  ghost predicate IsChain(w: World, p: seq<int>) {
    |p| > 0 && forall i | 0 <= i < |p| - 1 :: p[i + 1] in w.delegates(w.mapOf(p[i]))
  }

  /** The object is one of these or one they delegate to. */
  ghost predicate Below(w: World, os: seq<int>, o: int) {
    exists p :: IsChain(w, p) && p[0] in os && p[|p| - 1] == o
  }

  lemma BelowSelf(w: World, os: seq<int>, o: int)
    requires o in os
    ensures Below(w, os, o)
  {
    assert IsChain(w, [o]);
  }

  lemma BelowMore(w: World, os: seq<int>, o: int, d: int)
    requires Below(w, os, o) && d in w.delegates(w.mapOf(o))
    ensures Below(w, os, d)
  {
    var p :| IsChain(w, p) && p[0] in os && p[|p| - 1] == o;
    assert IsChain(w, p + [d]);
  }

  /** A delegate, direct or not, of a map that restricts delegation. */
  ghost predicate Restrained(w: World, o: int) {
    exists n :: n in w.maps && w.restricts(n) && Below(w, w.delegates(n), o)
  }

  /** No object of x's map is below that map, and none is below a map that restricts delegation. */
  ghost predicate Apart(w: World, x: int) {
    forall o | w.mapOf(o) == w.mapOf(x) :: !Below(w, w.delegates(w.mapOf(x)), o) && !Restrained(w, o)
  }

  /** Nothing but x has its map. */
  ghost predicate Alone(w: World, x: int) {
    forall o | o != x :: w.mapOf(o) != w.mapOf(x)
  }

  lemma {:induction false} AloneNeverMet(w: World, x: int, first: int, k: Option<Walker>, seen: set<int>, byX: Option<bool>)
    requires WellFormed(w) && Alone(w, x) && byX != Some(false)
    ensures SecondMeeting(w, x, first, k, seen, byX).None?
    decreases w.maps - seen, if k.Some? then |k.value.stack| + 1 else 0
  {
    if k.Some? {
      var n := w.mapOf(k.value.arg);
      if n in seen {
        AloneNeverMet(w, x, first, Pop(k.value.stack, k.value.restricted), seen, byX);
      } else {
        var r := Restriction(w, first, k.value);
        Delegation.Fewer(w.maps, seen, n);
        AloneNeverMet(w, x, first, Pop(Pushed(w, k.value, r), r), seen + {n}, if n == w.mapOf(x) then Some(k.value.arg == x) else byX);
      }
    }
  }

  /** What restricts the walk, where it does, is a map above. */
  ghost predicate RestrictedBelow(w: World, stack: seq<int>, restricted: Option<nat>) {
    restricted.Some? ==> forall i | restricted.value <= i < |stack| :: Restrained(w, stack[i])
  }

  /** From height h on there is only what is below the map of x, and of its delegates what has not been seen. */
  ghost predicate Pending(w: World, x: int, stack: seq<int>, seen: set<int>, h: nat) {
    && h <= |stack| && (forall i | h <= i < |stack| :: Below(w, w.delegates(w.mapOf(x)), stack[i]))
    && forall d | d in w.delegates(w.mapOf(x)) :: w.mapOf(d) in seen || d in stack[h..]
  }

  ghost predicate DelegatesSeen(w: World, x: int, seen: set<int>) {
    forall d | d in w.delegates(w.mapOf(x)) :: w.mapOf(d) in seen
  }

  /** The walk before its next object comes off the stack: inside what x's map delegates to, above height h, or past it, or before it. */
  ghost predicate Inside(w: World, x: int, stack: seq<int>, restricted: Option<nat>, seen: set<int>, met: bool, h: Option<nat>) {
    && RestrictedBelow(w, stack, restricted)
    && (met ==> if h.Some? then Pending(w, x, stack, seen, h.value) else DelegatesSeen(w, x, seen))
  }

  /** Whoever comes off the stack is, where the walk is restricted, below a map that restricts, and, while it is inside, below x's map. */
  lemma Popped(w: World, x: int, stack: seq<int>, restricted: Option<nat>, seen: set<int>, met: bool, h: Option<nat>) returns (h': Option<nat>)
    requires Inside(w, x, stack, restricted, seen, met, h) && Pop(stack, restricted).Some?
    ensures var k := Pop(stack, restricted).value;
      && (k.restricted.Some? ==> Restrained(w, k.arg))
      && (met && h'.Some? ==> Below(w, w.delegates(w.mapOf(x)), k.arg))
      && Inside(w, x, k.stack, k.restricted, seen + {w.mapOf(k.arg)}, met, h')
  {
    var n := |stack| - 1;
    var k := Pop(stack, restricted).value;
    h' := if h.Some? && h.value <= n then h else None;
    assert k.arg == stack[n] && k.stack == stack[..n];
    if met {
      forall d | d in w.delegates(w.mapOf(x))
        ensures w.mapOf(d) in seen + {w.mapOf(k.arg)} || (h'.Some? && d in k.stack[h'.value..])
      {
        if h.Some? && w.mapOf(d) !in seen {
          assert d in stack[h.value..];
          var i :| h.value <= i < |stack| && stack[i] == d;
          if i < n {
            assert k.stack[h.value..][i - h.value] == d;
          }
        }
      }
    }
  }

  lemma PoppedSeen(w: World, x: int, k: Walker, seen: set<int>, met: bool, h: Option<nat>)
    requires Inside(w, x, k.stack, k.restricted, seen + {w.mapOf(k.arg)}, met, h) && w.mapOf(k.arg) in seen
    ensures Inside(w, x, k.stack, k.restricted, seen, met, h)
  {
    assert seen + {w.mapOf(k.arg)} == seen;
  }

  /** A new map's delegates on the stack: below what restricts, where that is in force, and below x's map, while the walk is inside. */
  lemma PushedInside(w: World, x: int, first: int, k: Walker, seen: set<int>, byX: Option<bool>, h: Option<nat>) returns (h': Option<nat>)
    requires WellFormed(w) && Apart(w, x)
    requires (k.restricted.Some? ==> Restrained(w, k.arg)) && (byX.Some? && h.Some? ==> Below(w, w.delegates(w.mapOf(x)), k.arg))
    requires Inside(w, x, k.stack, k.restricted, seen + {w.mapOf(k.arg)}, byX.Some?, h)
    ensures var r := Restriction(w, first, k);
      Inside(w, x, Pushed(w, k, r), r, seen + {w.mapOf(k.arg)}, byX.Some? || w.mapOf(k.arg) == w.mapOf(x), h')
  {
    hide Below, Restrained;
    var n, r := w.mapOf(k.arg), Restriction(w, first, k);
    var again := Pushed(w, k, r);
    PushedRestricted(w, first, k);
    if n == w.mapOf(x) {
      assert k.restricted.None?;
      h' := Some(|k.stack|);
      assert again == k.stack + w.delegates(n) && again[|k.stack|..] == w.delegates(n);
      forall i | |k.stack| <= i < |again| ensures Below(w, w.delegates(n), again[i]) {
        BelowSelf(w, w.delegates(n), again[i]);
      }
    } else {
      h' := h;
      if byX.Some? && h.Some? {
        forall i | h.value <= i < |again| ensures Below(w, w.delegates(w.mapOf(x)), again[i]) {
          if |k.stack| <= i {
            BelowMore(w, w.delegates(w.mapOf(x)), k.arg, again[i]);
          }
        }
        assert again[h.value..] == k.stack[h.value..] + again[|k.stack|..];
      }
    }
  }

  lemma PushedRestricted(w: World, first: int, k: Walker)
    requires WellFormed(w) && RestrictedBelow(w, k.stack, k.restricted) && (k.restricted.Some? ==> Restrained(w, k.arg))
    ensures var r := Restriction(w, first, k); RestrictedBelow(w, Pushed(w, k, r), r)
  {
    hide Below;
    var n, r := w.mapOf(k.arg), Restriction(w, first, k);
    var again := Pushed(w, k, r);
    if r.Some? {
      forall i | r.value <= i < |again| ensures Restrained(w, again[i]) {
        if |k.stack| <= i {
          assert again[i] in w.delegates(n);
          if w.restricts(n) && k.arg != first {
            BelowSelf(w, w.delegates(n), again[i]);
          } else {
            var q :| q in w.maps && w.restricts(q) && Below(w, w.delegates(q), k.arg);
            BelowMore(w, w.delegates(q), k.arg, again[i]);
          }
        } else {
          assert again[i] == k.stack[i];
        }
      }
    }
  }

  /** Where no object of x's map is below that map or one that restricts, it is met again only when all its delegates have been seen. */
  lemma {:induction false} MetWhenSeen(w: World, x: int, first: int, k: Option<Walker>, seen: set<int>, byX: Option<bool>, h: Option<nat>)
    requires WellFormed(w) && Apart(w, x)
    requires k.Some? ==> (k.value.restricted.Some? ==> Restrained(w, k.value.arg))
                         && (byX.Some? && h.Some? ==> Below(w, w.delegates(w.mapOf(x)), k.value.arg))
                         && Inside(w, x, k.value.stack, k.value.restricted, seen + {w.mapOf(k.value.arg)}, byX.Some?, h)
    ensures var p := SecondMeeting(w, x, first, k, seen, byX);
      p.Some? ==> p.value.at.restricted.None? && DelegatesSeen(w, x, p.value.seen) && w.mapOf(p.value.at.arg) == w.mapOf(x)
    decreases w.maps - seen, if k.Some? then |k.value.stack| + 1 else 0
  {
    hide Below, Restrained, Inside, DelegatesSeen;
    if k.Some? {
      var arg, stack, restricted := k.value.arg, k.value.stack, k.value.restricted;
      var n := w.mapOf(arg);
      if n in seen {
        PoppedSeen(w, x, k.value, seen, byX.Some?, h);
        if n == w.mapOf(x) && byX.Some? && byX.value != (arg == x) {
          assert h.None?;
          PastIsSeen(w, x, stack, restricted, seen);
        } else {
          var next := Pop(stack, restricted);
          var h' := h;
          if next.Some? {
            h' := Popped(w, x, stack, restricted, seen, byX.Some?, h);
          }
          MetWhenSeen(w, x, first, next, seen, byX, h');
        }
      } else {
        var r := Restriction(w, first, k.value);
        var again := Pushed(w, k.value, r);
        var byX' := if n == w.mapOf(x) then Some(arg == x) else byX;
        var h' := PushedInside(w, x, first, k.value, seen, byX, h);
        Delegation.Fewer(w.maps, seen, n);
        if Pop(again, r).Some? {
          h' := Popped(w, x, again, r, seen + {n}, byX'.Some?, h');
        }
        MetWhenSeen(w, x, first, Pop(again, r), seen + {n}, byX', h');
      }
    }
  }

  lemma PastIsSeen(w: World, x: int, stack: seq<int>, restricted: Option<nat>, seen: set<int>)
    requires Inside(w, x, stack, restricted, seen, true, None)
    ensures DelegatesSeen(w, x, seen)
  {
  }

  /** What has been seen comes off the stack and leaves no trace. */
  lemma {:induction false} PopsSeen(w: World, first: int, stack: seq<int>, more: seq<int>, r: Option<nat>, seen: set<int>)
    requires (forall i | 0 <= i < |more| :: w.mapOf(more[i]) in seen) && |stack + more| <= DELEGATION_STACK_SIZE && (r.Some? ==> r.value == |stack|)
    ensures Walk(w, first, Pop(stack + more, r), seen) == Walk(w, first, Pop(stack, None), seen)
    ensures StackFits(w, first, Pop(stack + more, r), seen) <==> StackFits(w, first, Pop(stack, None), seen)
    decreases |more|
  {
    if more == [] {
      assert stack + more == stack;
      assert Pop(stack, r) == Pop(stack, None);
    } else {
      var last := |more| - 1;
      assert (stack + more)[..|stack + more| - 1] == stack + more[..last];
      assert Pop(stack + more, r) == Some(Walker(more[last], stack + more[..last], r));
      PopsSeen(w, first, stack, more[..last], r, seen);
    }
  }

  lemma OneSeen(w: World, x: int, seen: set<int>, i: nat)
    requires DelegatesSeen(w, x, seen) && i < |w.delegates(w.mapOf(x))|
    ensures w.mapOf(w.delegates(w.mapOf(x))[i]) in seen
  {
    var d := w.delegates(w.mapOf(x))[i];
    assert d in w.delegates(w.mapOf(x));
    assert w.mapOf(d) in seen;
  }

  /** Where nobody else can be met inside, every walk keeps its order, and fits if the one with the copy fits. */
  lemma ApartKeepsOrder(w: World, w': World, x: int, a: int)
    requires WellFormed(w) && Split(w, w', x) && (Apart(w, x) || Alone(w, x)) && Fits(w', a)
    ensures KeepsOrder(w, x, a) && Fits(w, a)
  {
    hide StackFits, SecondMeeting, Walk, Below, Restrained;
    var start := Some(Walker(a, [], None));
    FitsUntilMet(w, w', x, a, start, {}, {}, None);
    if Alone(w, x) {
      AloneNeverMet(w, x, a, start, {}, None);
    } else {
      MetWhenSeen(w, x, a, start, {}, None, None);
    }
    var p := SecondMeeting(w, x, a, start, {}, None);
    if p.Some? {
      assert DelegatesSeen(w, x, p.value.seen);
      var k, seen := p.value.at, p.value.seen;
      var r := Restriction(w, a, k);
      assert Pushed(w, k, r) == k.stack + w.delegates(w.mapOf(x));
      var ds := w.delegates(w.mapOf(x));
      forall i | 0 <= i < |ds| ensures w.mapOf(ds[i]) in seen {
        OneSeen(w, x, seen, i);
      }
      PopsSeen(w, a, k.stack, ds, r, seen);
    }
  }
}

/** A walk that does not keep its order: there are definitions for which dispatch then changes. */
module OrderMatters {
  import opened Wrappers
  import opened Delegation
  import opened Ranking
  import opened Dispatching
  import opened SameDispatch
  import opened SharedMaps

  ghost predicate AllDifferent(walk: seq<int>) {
    forall i, j | 0 <= i < j < |walk| :: walk[i] != walk[j]
  }

  lemma VisitedDifferent(w: World, a: int)
    ensures AllDifferent(Visited(w, a))
  {
    WalkDistinct(w, a, Some(Walker(a, [], None)), {});
  }

  /** A walk that meets every map once still does when the copy is taken for the map. */
  lemma {:induction false} CollapsedDifferent(walk: seq<int>, m: int, c: int, met: bool)
    requires AllDifferent(walk)
    ensures AllDifferent(Collapsed(walk, m, c, met)) && (met ==> m !in Collapsed(walk, m, c, met))
    ensures forall n | n in Collapsed(walk, m, c, met) :: n == m || (n in walk && n != c)
    decreases |walk|
  {
    if walk != [] {
      var n, rest := walk[0], walk[1..];
      assert walk == [n] + rest && n !in rest;
      CollapsedDifferent(rest, m, c, if n == m || n == c then true else met);
      CollapsedMore(n, rest, m, c, met);
    }
  }

  /** Two definitions: number 1 at one map, for one position, and number 2, perhaps, at another map for position 0. */
  function Rival(w: World, at1: int, p1: nat, at2: Option<int>, m: int, c: int): World {
    w.(roles := (n: int) =>
         var q := if n == c then m else n;
         (if q == at1 then [Role({p1}, 1)] else []) + (if Some(q) == at2 then [Role({0}, 2)] else []),
       positions := (d: int) => if d == 1 then {p1} else {0})
  }

  lemma RivalRoles(w: World, at1: int, p1: nat, at2: Option<int>, m: int, c: int, n: int, d: int, p: nat)
    ensures var q := if n == c then m else n;
      HasRole(Rival(w, at1, p1, at2, m, c), n, d, p) <==> (d == 1 && p == p1 && q == at1) || (d == 2 && p == 0 && Some(q) == at2)
  {
    var q := if n == c then m else n;
    var chain := Rival(w, at1, p1, at2, m, c).roles(n);
    if q == at1 {
      assert chain[0] == Role({p1}, 1);
    }
    if Some(q) == at2 {
      assert chain[|chain| - 1] == Role({0}, 2);
    }
  }

  lemma {:induction false} RivalWalk(w: World, at1: int, p1: nat, at2: Option<int>, m: int, c: int, first: int, k: Option<Walker>, seen: set<int>)
    ensures Walk(Rival(w, at1, p1, at2, m, c), first, k, seen) == Walk(w, first, k, seen)
    decreases w.maps - seen, if k.Some? then |k.value.stack| + 1 else 0
  {
    if k.Some? {
      var n := w.mapOf(k.value.arg);
      if n in seen || n !in w.maps {
        RivalWalk(w, at1, p1, at2, m, c, first, Pop(k.value.stack, k.value.restricted), seen);
      } else {
        var r := Restriction(w, first, k.value);
        Delegation.Fewer(w.maps, seen, n);
        RivalWalk(w, at1, p1, at2, m, c, first, Pop(Pushed(w, k.value, r), r), seen + {n});
      }
    }
  }

  /** Where the one map of a definition is in the walk. */
  lemma FoundOnce(u: World, walk: seq<int>, d: int, p: nat, at: Option<int>)
    requires AllDifferent(walk) && forall n | n in walk :: HasRole(u, n, d, p) <==> Some(n) == at
    ensures at.None? || at.value !in walk ==> FirstFound(u, walk, d, p) == |walk|
    ensures forall k | 0 <= k < |walk| && at == Some(walk[k]) :: FirstFound(u, walk, d, p) == k
  {
    hide HasRole;
    forall k | 0 <= k < |walk| && at == Some(walk[k]) ensures FirstFound(u, walk, d, p) == k {
      FirstFoundIs(u, walk, d, p, k);
    }
    var f := FirstFound(u, walk, d, p);
    assert f < |walk| ==> at == Some(walk[f]);
  }

  /** The one definition that is found only at position 0, or only at position 1. */
  lemma OnePosition(u: World, walks: seq<seq<int>>, d: int, p: nat)
    requires p < |walks| <= 2 && Short(walks) && u.positions(d) == {p} && (forall n, q: nat | q != p :: !HasRole(u, n, d, q))
    ensures var f := FirstFound(u, walks[p], d, p);
      && (Applicable(u, walks, d) <==> f < |walks[p]|)
      && (f < |walks[p]| ==> Rank(u, walks, d) == (31 - f) * (if p == 0 then 33554432 else 1048576))
  {
    hide HasRole;
    var f := FirstFound(u, walks[p], d, p);
    forall q: nat | q != p && q < |walks| ensures FirstFound(u, walks[q], d, q) == |walks[q]| {
      assert FirstFound(u, walks[q], d, q) <= |walks[q]|;
    }
    assert forall q: nat :: q in FoundAt(u, walks, d, End(walks)) <==> q == p && f < |walks[p]|;
    var ds := Digits(u, walks, d, End(walks));
    assert f < |walks[p]| ==> ds == if p == 0 then [31 - f, 0, 0, 0, 0, 0] else [0, 31 - f, 0, 0, 0, 0];
  }

  lemma Differ(a: seq<int>, b: seq<int>) returns (k: nat)
    requires a != b
    ensures k <= |a| && k <= |b| && a[..k] == b[..k] && (k < |a| || k < |b|) && (k < |a| && k < |b| ==> a[k] != b[k])
  {
    k := 0;
    while k < |a| && k < |b| && a[k] == b[k]
      invariant k <= |a| && k <= |b| && a[..k] == b[..k]
    {
      k := k + 1;
    }
    assert k == |a| ==> a[..k] == a;
    assert k == |b| ==> b[..k] == b;
  }

  lemma NotBefore(a: seq<int>, b: seq<int>, k: nat)
    requires k < |a| && k <= |b| && a[..k] == b[..k] && AllDifferent(a) && (k < |b| ==> a[k] != b[k])
    ensures forall i | 0 <= i <= k && i < |b| :: b[i] != a[k]
  {
    forall i | 0 <= i <= k && i < |b| ensures b[i] != a[k] {
      if i < k {
        assert b[i] == b[..k][i] == a[..k][i] == a[i];
      }
    }
  }

  /** The two worlds with the rivals, their walks, and that their dispatches differ. */
  ghost predicate Rivals(w: World, w': World, x: int, a: int, args: seq<int>, at1: int, p1: nat, at2: Option<int>) {
    var m, c := w.mapOf(x), w'.mapOf(x);
    var u, u' := Rival(w, at1, p1, at2, m, c), Rival(w', at1, p1, at2, m, c);
    && 0 < |args| <= 2 && p1 < |args| && (forall i | 0 <= i < |args| :: args[i] == a)
    && WellFormed(u) && Split(u, u', x) && IsBest(u, Walks(u, args), 1) && !IsBest(u', Walks(u', args), 1)
  }

  lemma RivalsOk(w: World, w': World, x: int, at1: int, p1: nat, at2: Option<int>)
    requires WellFormed(w) && Split(w, w', x)
    ensures var m, c := w.mapOf(x), w'.mapOf(x);
      WellFormed(Rival(w, at1, p1, at2, m, c)) && Split(Rival(w, at1, p1, at2, m, c), Rival(w', at1, p1, at2, m, c), x)
  {
  }

  /** Only the rivals can apply. */
  lemma OnlyRivals(w: World, at1: int, p1: nat, at2: Option<int>, m: int, c: int, walks: seq<seq<int>>, d: int)
    ensures Applicable(Rival(w, at1, p1, at2, m, c), walks, d) ==> d == 1 || d == 2
  {
    var u := Rival(w, at1, p1, at2, m, c);
    if d != 1 && d != 2 {
      forall p: nat ensures p !in FoundAt(u, walks, d, End(walks)) {
        if p < |walks| {
          forall k | 0 <= k < |walks[p]| ensures !HasRole(u, walks[p][k], d, p) {
            RivalRoles(w, at1, p1, at2, m, c, walks[p][k], d, p);
          }
          assert FirstFound(u, walks[p], d, p) <= |walks[p]|;
        }
      }
    }
  }

  /** Where the first definition is found, and the second one, if it is, and whether the first is best. */
  lemma RivalBest(w: World, at1: int, p1: nat, at2: Option<int>, m: int, c: int, args: seq<int>, a: int)
    requires 0 < |args| <= 2 && p1 < |args| && (forall i | 0 <= i < |args| :: args[i] == a) && |Visited(w, a)| <= 31
    ensures var u := Rival(w, at1, p1, at2, m, c);
      var f1, f2, n := FirstFound(u, Visited(w, a), 1, p1), FirstFound(u, Visited(w, a), 2, 0), |Visited(w, a)|;
      IsBest(u, Walks(u, args), 1) <==> f1 < n && (f2 < n ==> p1 == 0 && f1 <= f2)
  {
    var u, walk := Rival(w, at1, p1, at2, m, c), Visited(w, a);
    var walks := Walks(u, args);
    RivalWalk(w, at1, p1, at2, m, c, a, Some(Walker(a, [], None)), {});
    assert Visited(u, a) == walk;
    forall i | 0 <= i < |walks| ensures walks[i] == walk {
    }
    hide Visited, Rival, Walks, Applicable, Rank, FirstFound, HasRole;
    RivalPositions(w, at1, p1, at2, m, c);
    forall n, d, p ensures HasRole(u, n, d, p) ==> (d == 1 && p == p1) || (d == 2 && p == 0) {
      RivalRoles(w, at1, p1, at2, m, c, n, d, p);
    }
    OnePosition(u, walks, 1, p1);
    OnePosition(u, walks, 2, 0);
    forall d | Applicable(u, walks, d) ensures d == 1 || d == 2 {
      OnlyRivals(w, at1, p1, at2, m, c, walks, d);
    }
  }

  lemma RivalPositions(w: World, at1: int, p1: nat, at2: Option<int>, m: int, c: int)
    ensures var u := Rival(w, at1, p1, at2, m, c); u.positions(1) == {p1} && u.positions(2) == {0}
  {
  }

  /** Where the rivals are found in the walk with the copy: as in that walk with the copy taken for the map. */
  lemma RivalOrder(w: World, w': World, x: int, a: int, at1: int, p1: nat, at2: Option<int>)
    requires WellFormed(w) && Split(w, w', x)
    ensures var m, c := w.mapOf(x), w'.mapOf(x); var u' := Rival(w', at1, p1, at2, m, c);
      var cs := Collapsed(Visited(w', a), m, c, false);
      && (FirstFound(u', Visited(w', a), 1, p1) < |Visited(w', a)| <==> at1 in cs)
      && (FirstFound(u', Visited(w', a), 2, 0) < |Visited(w', a)| <==> at2.Some? && at2.value in cs)
      && (p1 == 0 ==> forall i, j | 0 <= i < |cs| && 0 <= j < |cs| && cs[i] == at1 && Some(cs[j]) == at2 ::
                        FirstFound(u', Visited(w', a), 1, 0) < FirstFound(u', Visited(w', a), 2, 0) <==> i < j)
      && (p1 == 0 ==> forall i, j | 0 <= i < |cs| && 0 <= j < |cs| && cs[i] == at1 && Some(cs[j]) == at2 ::
                        FirstFound(u', Visited(w', a), 2, 0) < FirstFound(u', Visited(w', a), 1, 0) <==> j < i)
  {
    var m, c, walk' := w.mapOf(x), w'.mapOf(x), Visited(w', a);
    var u' := Rival(w', at1, p1, at2, m, c);
    var cs := Collapsed(walk', m, c, false);
    hide HasRole, FirstFound, Visited, Rival, Collapsed, Split, WellFormed;
    SplitCopy(w, w', x);
    VisitedDifferent(w', a);
    CollapsedDifferent(walk', m, c, false);
    AllRivalRoles(w', at1, p1, at2, m, c);
    OrderOfCollapsed(u', walk', m, c, false, 1, 1, p1);
    OrderOfCollapsed(u', walk', m, c, false, 2, 2, 0);
    OrderOfCollapsed(u', walk', m, c, false, 1, 2, 0);
    FoundOnce(u', cs, 1, p1, Some(at1));
    FoundOnce(u', cs, 2, 0, at2);
  }

  lemma AllRivalRoles(w: World, at1: int, p1: nat, at2: Option<int>, m: int, c: int)
    requires m != c
    ensures var u := Rival(w, at1, p1, at2, m, c);
      forall n, d, p :: HasRole(u, n, d, p) <==>
        var q := if n == c then m else n; (d == 1 && p == p1 && q == at1) || (d == 2 && p == 0 && Some(q) == at2)
  {
    hide HasRole, Rival;
    forall n, d, p
      ensures HasRole(Rival(w, at1, p1, at2, m, c), n, d, p) <==>
        var q := if n == c then m else n; (d == 1 && p == p1 && q == at1) || (d == 2 && p == 0 && Some(q) == at2)
    {
      RivalRoles(w, at1, p1, at2, m, c, n, d, p);
    }
  }

  /** Where the rivals are found in the walk as it was. */
  lemma RivalPlaces(w: World, a: int, at1: int, p1: nat, at2: Option<int>, m: int, c: int)
    requires c !in w.maps
    ensures var u := Rival(w, at1, p1, at2, m, c); var walk := Visited(w, a);
      && (at1 !in walk ==> FirstFound(u, walk, 1, p1) == |walk|) && (at2.None? || at2.value !in walk ==> FirstFound(u, walk, 2, 0) == |walk|)
      && (forall i | 0 <= i < |walk| && walk[i] == at1 :: FirstFound(u, walk, 1, p1) == i)
      && (forall i | 0 <= i < |walk| && Some(walk[i]) == at2 :: FirstFound(u, walk, 2, 0) == i)
  {
    var u, walk := Rival(w, at1, p1, at2, m, c), Visited(w, a);
    VisitedDifferent(w, a);
    VisitedKnown(w, a);
    forall n, d, p ensures HasRole(u, n, d, p) <==>
      var q := if n == c then m else n; (d == 1 && p == p1 && q == at1) || (d == 2 && p == 0 && Some(q) == at2)
    {
      RivalRoles(w, at1, p1, at2, m, c, n, d, p);
    }
    hide HasRole, FirstFound, Visited, Rival;
    FoundOnce(u, walk, 1, p1, Some(at1));
    FoundOnce(u, walk, 2, 0, at2);
  }

  /** At the one map the first rival is ahead of the other in the walk as it was, and not in the other walk. */
  ghost predicate Overtaken(walk: seq<int>, cs: seq<int>, at1: int, p1: nat, at2: Option<int>) {
    && at1 in walk && p1 <= 1
    && (forall i, j | 0 <= i < |walk| && 0 <= j < |walk| && walk[i] == at1 && Some(walk[j]) == at2 :: p1 == 0 && i < j)
    && (at1 in cs ==> at2.Some? && at2.value in cs
                      && (p1 == 0 ==> forall i, j | 0 <= i < |cs| && 0 <= j < |cs| && cs[i] == at1 && cs[j] == at2.value :: j < i))
  }

  lemma ChooseRivals(walk: seq<int>, cs: seq<int>) returns (at1: int, p1: nat, at2: Option<int>)
    requires walk != cs && |walk| > 0 && AllDifferent(walk) && AllDifferent(cs)
    ensures Overtaken(walk, cs, at1, p1, at2)
  {
    var k := Differ(walk, cs);
    if k < |walk| {
      at1, p1, at2 := walk[k], 0, if k < |cs| then Some(cs[k]) else None;
      NotBefore(walk, cs, k);
      if k < |cs| {
        NotBefore(cs, walk, k);
        assert cs[k] in cs;
      }
    } else {
      at1, p1, at2 := walk[0], 1, Some(cs[k]);
      NotBefore(cs, walk, k);
      assert cs[k] in cs;
    }
  }

  /** If the walk does not keep its order, there are definitions of which the best one is no longer best. */
  lemma OrderMatters(w: World, w': World, x: int, a: int) returns (args: seq<int>, at1: int, p1: nat, at2: Option<int>)
    requires WellFormed(w) && Split(w, w', x) && !KeepsOrder(w, x, a) && |Visited(w, a)| <= 31 && |Visited(w', a)| <= 31
    ensures Rivals(w, w', x, a, args, at1, p1, at2)
  {
    hide *;
    var m, c := w.mapOf(x), w'.mapOf(x);
    var walk, cs := Visited(w, a), Collapsed(Visited(w', a), m, c, false);
    OrderKeptExactly(w, w', x, a);
    SplitCopy(w, w', x);
    VisitedDifferent(w, a);
    VisitedDifferent(w', a);
    CollapsedDifferent(Visited(w', a), m, c, false);
    StartsAt(w, a);
    at1, p1, at2 := ChooseRivals(walk, cs);
    args := if p1 == 0 then [a] else [a, a];
    RivalsOk(w, w', x, at1, p1, at2);
    OvertakenIs(walk, cs, at1, p1, at2);
    BestBefore(w, a, args, at1, p1, at2, m, c);
    NotBestAfter(w, w', x, a, args, at1, p1, at2);
    RivalsAre(w, w', x, a, args, at1, p1, at2);
  }

  lemma OvertakenIs(walk: seq<int>, cs: seq<int>, at1: int, p1: nat, at2: Option<int>)
    requires Overtaken(walk, cs, at1, p1, at2)
    ensures at1 in walk && p1 <= 1
    ensures forall i, j | 0 <= i < |walk| && 0 <= j < |walk| && walk[i] == at1 && Some(walk[j]) == at2 :: p1 == 0 && i < j
    ensures at1 in cs ==> at2.Some? && at2.value in cs && (p1 == 0 ==> forall i, j | 0 <= i < |cs| && 0 <= j < |cs| && cs[i] == at1 && cs[j] == at2.value :: j < i)
  {
  }

  lemma RivalsAre(w: World, w': World, x: int, a: int, args: seq<int>, at1: int, p1: nat, at2: Option<int>)
    requires 0 < |args| <= 2 && p1 < |args| && (forall i | 0 <= i < |args| :: args[i] == a)
    requires var m, c := w.mapOf(x), w'.mapOf(x); var u, u' := Rival(w, at1, p1, at2, m, c), Rival(w', at1, p1, at2, m, c);
      WellFormed(u) && Split(u, u', x) && IsBest(u, Walks(u, args), 1) && !IsBest(u', Walks(u', args), 1)
    ensures Rivals(w, w', x, a, args, at1, p1, at2)
  {
    hide WellFormed, Split, IsBest, Walks, Rival;
  }

  lemma BestBefore(w: World, a: int, args: seq<int>, at1: int, p1: nat, at2: Option<int>, m: int, c: int)
    requires 0 < |args| <= 2 && p1 < |args| && (forall i | 0 <= i < |args| :: args[i] == a) && |Visited(w, a)| <= 31 && c !in w.maps
    requires at1 in Visited(w, a)
    requires forall i, j | 0 <= i < |Visited(w, a)| && 0 <= j < |Visited(w, a)| && Visited(w, a)[i] == at1 && Some(Visited(w, a)[j]) == at2 :: p1 == 0 && i < j
    ensures IsBest(Rival(w, at1, p1, at2, m, c), Walks(Rival(w, at1, p1, at2, m, c), args), 1)
  {
    hide Visited, FirstFound, IsBest, Walks, Rival;
    RivalBest(w, at1, p1, at2, m, c, args, a);
    RivalPlaces(w, a, at1, p1, at2, m, c);
    var walk := Visited(w, a);
    var i :| 0 <= i < |walk| && walk[i] == at1;
    if at2.Some? && at2.value in walk {
      var j :| 0 <= j < |walk| && walk[j] == at2.value;
      assert i < j;
    }
  }

  lemma NotBestAfter(w: World, w': World, x: int, a: int, args: seq<int>, at1: int, p1: nat, at2: Option<int>)
    requires WellFormed(w) && Split(w, w', x) && |Visited(w', a)| <= 31
    requires 0 < |args| <= 2 && p1 < |args| && (forall i | 0 <= i < |args| :: args[i] == a)
    requires var cs := Collapsed(Visited(w', a), w.mapOf(x), w'.mapOf(x), false);
      at1 in cs ==> at2.Some? && at2.value in cs
                    && (p1 == 0 ==> forall i, j | 0 <= i < |cs| && 0 <= j < |cs| && cs[i] == at1 && cs[j] == at2.value :: j < i)
    ensures var u' := Rival(w', at1, p1, at2, w.mapOf(x), w'.mapOf(x)); !IsBest(u', Walks(u', args), 1)
  {
    hide Visited, FirstFound, IsBest, Walks, Rival, Collapsed, WellFormed, Split;
    var m, c := w.mapOf(x), w'.mapOf(x);
    RivalBest(w', at1, p1, at2, m, c, args, a);
    RivalOrder(w, w', x, a, at1, p1, at2);
    var cs := Collapsed(Visited(w', a), m, c, false);
    if at1 in cs {
      var i :| 0 <= i < |cs| && cs[i] == at1;
      var j :| 0 <= j < |cs| && cs[j] == at2.value;
      assert p1 == 0 ==> j < i;
    }
  }

  lemma StartsAt(w: World, a: int)
    requires WellFormed(w)
    ensures |Visited(w, a)| > 0
  {
    FirstStep(w, a);
  }

  // ---------- what walks depend on ----------

  /** The same objects, maps and delegates, whatever the roles. */
  ghost predicate SameObjects(w: World, u: World) {
    w.maps == u.maps && (forall o :: w.mapOf(o) == u.mapOf(o)) && forall n :: w.delegates(n) == u.delegates(n) && w.restricts(n) == u.restricts(n)
  }

  lemma AlikeStep(w: World, u: World, first: int, k: Walker)
    requires SameObjects(w, u)
    ensures w.mapOf(k.arg) == u.mapOf(k.arg) && Restriction(w, first, k) == Restriction(u, first, k)
    ensures forall r :: Pushed(w, k, r) == Pushed(u, k, r)
  {
  }

  lemma {:induction false} AlikeWalk(w: World, u: World, first: int, k: Option<Walker>, seen: set<int>)
    requires SameObjects(w, u)
    ensures Walk(w, first, k, seen) == Walk(u, first, k, seen) && (StackFits(w, first, k, seen) <==> StackFits(u, first, k, seen))
    decreases w.maps - seen, if k.Some? then |k.value.stack| + 1 else 0
  {
    if k.Some? {
      var n := w.mapOf(k.value.arg);
      AlikeStep(w, u, first, k.value);
      if n in seen || n !in w.maps {
        AlikeWalk(w, u, first, Pop(k.value.stack, k.value.restricted), seen);
      } else {
        var r := Restriction(w, first, k.value);
        Delegation.Fewer(w.maps, seen, n);
        AlikeWalk(w, u, first, Pop(Pushed(w, k.value, r), r), seen + {n});
      }
    }
  }

  lemma {:induction false} AlikeMeeting(w: World, u: World, x: int, first: int, k: Option<Walker>, seen: set<int>, byX: Option<bool>)
    requires SameObjects(w, u)
    ensures SecondMeeting(w, x, first, k, seen, byX) == SecondMeeting(u, x, first, k, seen, byX)
    decreases w.maps - seen, if k.Some? then |k.value.stack| + 1 else 0
  {
    if k.Some? {
      var n := w.mapOf(k.value.arg);
      AlikeStep(w, u, first, k.value);
      if n in seen || n !in w.maps {
        AlikeMeeting(w, u, x, first, Pop(k.value.stack, k.value.restricted), seen, byX);
      } else {
        var r := Restriction(w, first, k.value);
        Delegation.Fewer(w.maps, seen, n);
        AlikeMeeting(w, u, x, first, Pop(Pushed(w, k.value, r), r), seen + {n}, if n == w.mapOf(x) then Some(k.value.arg == x) else byX);
      }
    }
  }

  /** Which maps are walked in which order, within which stack, and whether that order is kept, does not depend on roles. */
  lemma AlikeObjects(w: World, u: World, x: int, a: int)
    requires SameObjects(w, u)
    ensures Visited(w, a) == Visited(u, a) && (Fits(w, a) <==> Fits(u, a)) && (KeepsOrder(w, x, a) <==> KeepsOrder(u, x, a))
  {
    var start := Some(Walker(a, [], None));
    AlikeWalk(w, u, a, start, {});
    AlikeMeeting(w, u, x, a, start, {}, None);
    var p := SecondMeeting(w, x, a, start, {}, None);
    if p.Some? {
      var k, seen := p.value.at, p.value.seen;
      var r := Restriction(w, a, k);
      AlikeStep(w, u, a, k);
      AlikeWalk(w, u, a, Pop(Pushed(w, k, r), r), seen);
      AlikeWalk(w, u, a, Pop(k.stack, k.restricted), seen);
    }
  }

  /** Nor does dispatch depend on more than all of this together. */
  lemma AlikeBest(w: World, u: World, args: seq<int>, d: int)
    requires SameObjects(w, u) && w.positions == u.positions && forall n :: w.roles(n) == u.roles(n)
    ensures IsBest(w, Walks(w, args), d) <==> IsBest(u, Walks(u, args), d)
  {
    forall i | 0 <= i < |args| ensures Visited(w, args[i]) == Visited(u, args[i]) {
      AlikeWalk(w, u, args[i], Some(Walker(args[i], [], None)), {});
    }
    hide Visited, IsBest, FirstFound;
    forall n, e, p ensures HasRole(w, n, e, p) <==> HasRole(u, n, e, p) {
    }
    forall e, p: nat ensures Depth(w, Walks(w, args), e, p) == Depth(u, Walks(u, args), e, p) {
      if p < |args| {
        SameFirst(w, Visited(w, args[p]), u, Visited(u, args[p]), e, p);
      }
    }
    SameBest(w, Walks(w, args), u, Walks(u, args), d);
  }
}

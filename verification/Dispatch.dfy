/** method_dispatch_on: the search for the most specific definition, and why it may stop before it has seen everything. */
module Dispatching {
  import opened Wrappers
  import opened Delegation
  import opened Ranking

  /** What dispatch has noted in the definitions: notes of earlier dispatches have another number and count for nothing. */
  datatype Marks = Marks(current: nat, ids: map<int, nat>, found: map<int, set<nat>>, ranks: map<int, nat>) {
    function Found(d: int): set<nat> {
      if d in ids && ids[d] == current && d in found then found[d] else {}
    }

    function RankNow(d: int): nat {
      if d in ids && ids[d] == current && d in ranks then ranks[d] else 0
    }

    /** The definition is found at position i with this digit: unless it was before, both are noted. */
    function Hit(d: int, i: nat, digit: nat): Marks
      requires i < POSITIONS
    {
      if i in Found(d) then this
      else Marks(current, ids[d := current], found[d := Found(d) + {i}], ranks[d := RankNow(d) + digit * Weight(i)])
    }
  }

  /** The best complete definition so far, the highest rank so far, and the definition that alone has it, if that is complete. */
  datatype Best = Best(dispatch: Option<int>, bestRank: nat, bestDef: Option<int>)

  predicate Complete(w: World, mk: Marks, d: int) {
    mk.Found(d) == w.positions(d) && mk.Found(d) != {}
  }

  ghost predicate BestOk(w: World, mk: Marks, b: Best) {
    && (forall d :: mk.RankNow(d) <= b.bestRank)
    && (b.dispatch.None? ==> forall d :: !Complete(w, mk, d))
    && (b.dispatch.Some? ==> Complete(w, mk, b.dispatch.value) && forall d | Complete(w, mk, d) :: mk.RankNow(d) <= mk.RankNow(b.dispatch.value))
    && (b.bestDef.Some? ==> Complete(w, mk, b.bestDef.value) && mk.RankNow(b.bestDef.value) == b.bestRank > 0
                            && forall d | d != b.bestDef.value :: mk.RankNow(d) < b.bestRank)
  }

  /** What dispatch does with a definition that has just been found at one more position. */
  function Judge(w: World, mk: Marks, b: Best, d: int): Best {
    var r := mk.RankNow(d);
    var b1 :=
      if Complete(w, mk, d) && (b.dispatch.None? || r > mk.RankNow(b.dispatch.value)) then
        if r > b.bestRank then Best(Some(d), r, Some(d)) else b.(dispatch := Some(d))
      else b;
    if r >= b1.bestRank && b1.bestDef != Some(d) then b1.(bestRank := r, bestDef := None) else b1
  }

  lemma JudgeOk(w: World, mk: Marks, b: Best, d: int, i: nat, digit: nat)
    requires WellFormed(w) && BestOk(w, mk, b) && i < POSITIONS && i !in mk.Found(d) && digit > 0
    requires i in w.positions(d)
    ensures BestOk(w, mk.Hit(d, i, digit), Judge(w, mk.Hit(d, i, digit), b, d))
  {
    hide Marks.Hit, Marks.Found, Marks.RankNow;
    var mk' := mk.Hit(d, i, digit);
    HitSelf(mk, d, i, digit);
    WeightPositive(i, digit);
    forall e | e != d ensures mk'.Found(e) == mk.Found(e) && mk'.RankNow(e) == mk.RankNow(e) && (Complete(w, mk', e) <==> Complete(w, mk, e)) {
      HitOthers(mk, d, i, digit, e);
    }
    assert !Complete(w, mk, d);
  }

  lemma HitSelf(mk: Marks, d: int, i: nat, digit: nat)
    requires i < POSITIONS && i !in mk.Found(d)
    ensures mk.Hit(d, i, digit).Found(d) == mk.Found(d) + {i} && mk.Hit(d, i, digit).RankNow(d) == mk.RankNow(d) + digit * Weight(i)
  {
  }

  lemma HitOthers(mk: Marks, d: int, i: nat, digit: nat, e: int)
    requires i < POSITIONS && e != d
    ensures mk.Hit(d, i, digit).Found(e) == mk.Found(e) && mk.Hit(d, i, digit).RankNow(e) == mk.RankNow(e)
  {
  }

  lemma WeightPositive(i: nat, digit: nat)
    requires i < POSITIONS && digit > 0
    ensures digit * Weight(i) > 0
  {
  }

  // ---------- marks and the progress of the search ----------

  ghost predicate MarksAre(w: World, mk: Marks, walks: seq<seq<int>>, at: Progress) {
    forall d :: mk.Found(d) == FoundAt(w, walks, d, at) && mk.RankNow(d) == Pack(Digits(w, walks, d, at))
  }

  /** One of the first j roles of the map is the definition's, for position p. */
  predicate HitBy(w: World, m: int, j: nat, d: int, p: nat) {
    exists k :: 0 <= k < j && k < |w.roles(m)| && w.roles(m)[k].def == d && p in w.roles(m)[k].positions
  }

  /** The first j roles of map number k of argument i have been looked at. */
  ghost predicate MarksMid(w: World, mk: Marks, walks: seq<seq<int>>, i: nat, k: nat, j: nat)
    requires i < |walks| && k < |walks[i]|
  {
    forall d ::
      var at := if HitBy(w, walks[i][k], j, d, i) then Progress(i, k + 1) else Progress(i, k);
      mk.Found(d) == FoundAt(w, walks, d, at) && mk.RankNow(d) == Pack(Digits(w, walks, d, at))
  }

  /** What one more map adds for a definition. */
  lemma Advance(w: World, walks: seq<seq<int>>, d: int, i: nat, k: nat)
    requires Short(walks) && i < |walks| && k < |walks[i]|
    ensures var a, b := Progress(i, k), Progress(i, k + 1); var hit := HasRole(w, walks[i][k], d, i);
      && FoundAt(w, walks, d, b) == FoundAt(w, walks, d, a) + (if hit then {i} else {})
      && Digits(w, walks, d, b) == (if hit && i !in FoundAt(w, walks, d, a) then Digits(w, walks, d, a)[i := 31 - k] else Digits(w, walks, d, a))
      && (i !in FoundAt(w, walks, d, a) ==> Digits(w, walks, d, a)[i] == 0)
  {
    var a, b := Progress(i, k), Progress(i, k + 1);
    var f := FirstFound(w, walks[i], d, i);
    if HasRole(w, walks[i][k], d, i) && f >= k {
      FirstFoundIs(w, walks[i], d, i, k);
    }
    assert f == k ==> HasRole(w, walks[i][k], d, i);
    FoundStep(w, walks, d, i, k);
    DigitsStep(w, walks, d, i, k);
  }

  lemma FoundStep(w: World, walks: seq<seq<int>>, d: int, i: nat, k: nat)
    requires i < |walks| && k < |walks[i]|
    ensures FoundAt(w, walks, d, Progress(i, k + 1)) ==
            FoundAt(w, walks, d, Progress(i, k)) + (if FirstFound(w, walks[i], d, i) <= k then {i} else {})
    ensures i in FoundAt(w, walks, d, Progress(i, k)) <==> FirstFound(w, walks[i], d, i) < k
  {
    var a, b := FoundAt(w, walks, d, Progress(i, k)), FoundAt(w, walks, d, Progress(i, k + 1));
    forall p: nat ensures p in b <==> p in a + (if FirstFound(w, walks[i], d, i) <= k then {i} else {}) {
    }
  }

  lemma DigitsStep(w: World, walks: seq<seq<int>>, d: int, i: nat, k: nat)
    requires Short(walks) && i < |walks| && k < |walks[i]|
    ensures Digits(w, walks, d, Progress(i, k + 1)) ==
            if FirstFound(w, walks[i], d, i) == k then Digits(w, walks, d, Progress(i, k))[i := 31 - k] else Digits(w, walks, d, Progress(i, k))
    ensures FirstFound(w, walks[i], d, i) >= k ==> Digits(w, walks, d, Progress(i, k))[i] == 0
  {
  }

  lemma HitMore(w: World, m: int, j: nat, d: int, p: nat)
    requires j < |w.roles(m)|
    ensures HitBy(w, m, j + 1, d, p) <==> HitBy(w, m, j, d, p) || (w.roles(m)[j].def == d && p in w.roles(m)[j].positions)
  {
    if HitBy(w, m, j + 1, d, p) {
      var k :| 0 <= k < j + 1 && k < |w.roles(m)| && w.roles(m)[k].def == d && p in w.roles(m)[k].positions;
      assert k < j || k == j;
    }
  }

  /** The step of the loop over a map's roles. */
  lemma RoleStep(w: World, mk: Marks, walks: seq<seq<int>>, i: nat, k: nat, j: nat)
    requires Short(walks) && i < |walks| && k < |walks[i]| && j < |w.roles(walks[i][k])| && MarksMid(w, mk, walks, i, k, j)
    ensures var r := w.roles(walks[i][k])[j];
      && (i in r.positions ==> MarksMid(w, mk.Hit(r.def, i, 31 - k), walks, i, k, j + 1))
      && (i !in r.positions ==> MarksMid(w, mk, walks, i, k, j + 1))
  {
    hide FoundAt, Digits, Pack, Marks.Hit, HitBy, Marks.Found, Marks.RankNow, MarksMid;
    if i in w.roles(walks[i][k])[j].positions {
      RoleHit(w, mk, walks, i, k, j);
    } else {
      MidSkips(w, mk, walks, i, k, j);
    }
  }

  lemma RoleHit(w: World, mk: Marks, walks: seq<seq<int>>, i: nat, k: nat, j: nat)
    requires Short(walks) && i < |walks| && k < |walks[i]| && j < |w.roles(walks[i][k])| && MarksMid(w, mk, walks, i, k, j)
    requires i in w.roles(walks[i][k])[j].positions
    ensures MarksMid(w, mk.Hit(w.roles(walks[i][k])[j].def, i, 31 - k), walks, i, k, j + 1)
  {
    hide FoundAt, Digits, Pack, HasRole, Marks.Hit, HitBy, Marks.Found, Marks.RankNow, MarksMid;
    var r := w.roles(walks[i][k])[j];
    RoleOf(w, walks[i][k], j, i);
    HitMarks(w, mk, walks, i, k, j, r.def);
    forall d | d != r.def ensures mk.Hit(r.def, i, 31 - k).Found(d) == mk.Found(d) && mk.Hit(r.def, i, 31 - k).RankNow(d) == mk.RankNow(d) {
      HitOthers(mk, r.def, i, 31 - k, d);
    }
    MidStep(w, mk, mk.Hit(r.def, i, 31 - k), walks, i, k, j);
  }

  lemma RoleOf(w: World, m: int, j: nat, i: nat)
    requires j < |w.roles(m)| && i in w.roles(m)[j].positions
    ensures HasRole(w, m, w.roles(m)[j].def, i)
  {
  }

  lemma MidStep(w: World, mk: Marks, mk': Marks, walks: seq<seq<int>>, i: nat, k: nat, j: nat)
    requires i < |walks| && k < |walks[i]| && j < |w.roles(walks[i][k])| && MarksMid(w, mk, walks, i, k, j)
    requires var r := w.roles(walks[i][k])[j];
      && i in r.positions && (forall d | d != r.def :: mk'.Found(d) == mk.Found(d) && mk'.RankNow(d) == mk.RankNow(d))
      && mk'.Found(r.def) == FoundAt(w, walks, r.def, Progress(i, k + 1))
      && mk'.RankNow(r.def) == Pack(Digits(w, walks, r.def, Progress(i, k + 1)))
    ensures MarksMid(w, mk', walks, i, k, j + 1)
  {
    hide FoundAt, Digits, Pack, HitBy, Marks.Found, Marks.RankNow;
    var r := w.roles(walks[i][k])[j];
    forall d
      ensures var at := if HitBy(w, walks[i][k], j + 1, d, i) then Progress(i, k + 1) else Progress(i, k);
        mk'.Found(d) == FoundAt(w, walks, d, at) && mk'.RankNow(d) == Pack(Digits(w, walks, d, at))
    {
      HitMore(w, walks[i][k], j, d, i);
      assert mk.Found(d) == mk.Found(d);
    }
  }

  lemma MidSkips(w: World, mk: Marks, walks: seq<seq<int>>, i: nat, k: nat, j: nat)
    requires i < |walks| && k < |walks[i]| && j < |w.roles(walks[i][k])| && MarksMid(w, mk, walks, i, k, j)
    requires i !in w.roles(walks[i][k])[j].positions
    ensures MarksMid(w, mk, walks, i, k, j + 1)
  {
    hide FoundAt, Digits, Pack, HitBy, Marks.Found, Marks.RankNow;
    forall d
      ensures var at := if HitBy(w, walks[i][k], j + 1, d, i) then Progress(i, k + 1) else Progress(i, k);
        mk.Found(d) == FoundAt(w, walks, d, at) && mk.RankNow(d) == Pack(Digits(w, walks, d, at))
    {
      HitMore(w, walks[i][k], j, d, i);
      assert mk.Found(d) == mk.Found(d);
    }
  }

  lemma HitMarks(w: World, mk: Marks, walks: seq<seq<int>>, i: nat, k: nat, j: nat, d: int)
    requires Short(walks) && i < |walks| && k < |walks[i]| && MarksMid(w, mk, walks, i, k, j) && HasRole(w, walks[i][k], d, i)
    ensures mk.Hit(d, i, 31 - k).Found(d) == FoundAt(w, walks, d, Progress(i, k + 1))
    ensures mk.Hit(d, i, 31 - k).RankNow(d) == Pack(Digits(w, walks, d, Progress(i, k + 1)))
  {
    MidAt(w, mk, walks, i, k, j, d);
    Advance(w, walks, d, i, k);
    hide *;
    HitOne(mk, d, i, 31 - k, FoundAt(w, walks, d, Progress(i, k)), Digits(w, walks, d, Progress(i, k)),
           FoundAt(w, walks, d, Progress(i, k + 1)), Digits(w, walks, d, Progress(i, k + 1)));
  }

  lemma MidAt(w: World, mk: Marks, walks: seq<seq<int>>, i: nat, k: nat, j: nat, d: int)
    requires i < |walks| && k < |walks[i]| && MarksMid(w, mk, walks, i, k, j)
    ensures (mk.Found(d) == FoundAt(w, walks, d, Progress(i, k)) && mk.RankNow(d) == Pack(Digits(w, walks, d, Progress(i, k))))
         || (mk.Found(d) == FoundAt(w, walks, d, Progress(i, k + 1)) && mk.RankNow(d) == Pack(Digits(w, walks, d, Progress(i, k + 1))))
  {
    hide FoundAt, Digits, Pack, HitBy, Marks.Found, Marks.RankNow;
    assert mk.Found(d) == mk.Found(d);
  }

  /** The notes were those of one moment or already those of the next: afterwards they are those of the next. */
  lemma HitOne(mk: Marks, d: int, i: nat, digit: nat, found: set<nat>, digits: seq<nat>, found': set<nat>, digits': seq<nat>)
    requires i < POSITIONS && IsDigits(digits) && IsDigits(digits') && found' == found + {i}
    requires digits' == if i !in found then digits[i := digit] else digits
    requires i !in found ==> digits[i] == 0
    requires (mk.Found(d) == found && mk.RankNow(d) == Pack(digits)) || (mk.Found(d) == found' && mk.RankNow(d) == Pack(digits'))
    ensures mk.Hit(d, i, digit).Found(d) == found' && mk.Hit(d, i, digit).RankNow(d) == Pack(digits')
  {
    hide Marks.Hit, Marks.Found, Marks.RankNow, Pack;
    if i in mk.Found(d) {
      NotedBefore(mk, d, i, digit);
    } else {
      HitSelf(mk, d, i, digit);
      PackMore(digits, i, digit);
    }
  }

  lemma MapStarts(w: World, mk: Marks, walks: seq<seq<int>>, i: nat, k: nat)
    requires i < |walks| && k < |walks[i]| && MarksAre(w, mk, walks, Progress(i, k))
    ensures MarksMid(w, mk, walks, i, k, 0)
  {
    hide FoundAt, Digits, Pack;
  }

  lemma MapEnds(w: World, mk: Marks, walks: seq<seq<int>>, i: nat, k: nat)
    requires Short(walks) && i < |walks| && k < |walks[i]| && MarksMid(w, mk, walks, i, k, |w.roles(walks[i][k])|)
    ensures MarksAre(w, mk, walks, Progress(i, k + 1))
  {
    hide FoundAt, Digits, Pack, Marks.Found, Marks.RankNow, Short;
    forall d ensures mk.Found(d) == FoundAt(w, walks, d, Progress(i, k + 1)) && mk.RankNow(d) == Pack(Digits(w, walks, d, Progress(i, k + 1))) {
      Advance(w, walks, d, i, k);
      assert HitBy(w, walks[i][k], |w.roles(walks[i][k])|, d, i) <==> HasRole(w, walks[i][k], d, i);
      assert mk.Found(d) == mk.Found(d);
      assert !HasRole(w, walks[i][k], d, i) ==>
        FoundAt(w, walks, d, Progress(i, k + 1)) == FoundAt(w, walks, d, Progress(i, k))
        && Digits(w, walks, d, Progress(i, k + 1)) == Digits(w, walks, d, Progress(i, k));
    }
  }

  /** At the end of an argument's walk. */
  lemma ArgumentEnds(w: World, mk: Marks, walks: seq<seq<int>>, i: nat)
    requires Short(walks) && i < |walks| && MarksAre(w, mk, walks, Progress(i, |walks[i]|))
    ensures MarksAre(w, mk, walks, Progress(i + 1, 0))
  {
    hide FoundAt, Digits, Pack, Marks.Found, Marks.RankNow, Short;
    forall d ensures mk.Found(d) == FoundAt(w, walks, d, Progress(i + 1, 0)) && mk.RankNow(d) == Pack(Digits(w, walks, d, Progress(i + 1, 0))) {
      assert mk.Found(d) == FoundAt(w, walks, d, Progress(i, |walks[i]|));
      NextArgument(w, walks, d, i);
    }
  }

  lemma NextArgument(w: World, walks: seq<seq<int>>, d: int, i: nat)
    requires i < |walks|
    ensures FoundAt(w, walks, d, Progress(i, |walks[i]|)) == FoundAt(w, walks, d, Progress(i + 1, 0))
    ensures Digits(w, walks, d, Progress(i, |walks[i]|)) == Digits(w, walks, d, Progress(i + 1, 0))
  {
    forall p: nat ensures p in FoundAt(w, walks, d, Progress(i, |walks[i]|)) <==> p in FoundAt(w, walks, d, Progress(i + 1, 0)) {
    }
    forall p: nat ensures Digit(w, walks, d, p, Progress(i, |walks[i]|)) == Digit(w, walks, d, p, Progress(i + 1, 0)) {
    }
  }

  // ---------- results ----------

  ghost predicate WalksOk(w: World, walks: seq<seq<int>>) {
    Short(walks) && forall p, k | 0 <= p < |walks| && 0 <= k < |walks[p]| :: walks[p][k] in w.maps
  }

  /** A definition that an exhaustive search finds to be of the highest rank among the applicable ones. */
  ghost predicate IsBest(w: World, walks: seq<seq<int>>, d: int) {
    Applicable(w, walks, d) && forall e | Applicable(w, walks, e) :: Rank(w, walks, e) <= Rank(w, walks, d)
  }

  /** Stopping early: the definition ranks above every other one, whatever the rest of the search would have found. */
  lemma EarlyExit(w: World, walks: seq<seq<int>>, mk: Marks, at: Progress, b: Best, d: int)
    requires WellFormed(w) && WalksOk(w, walks) && at.arg < |walks| && at.count <= |walks[at.arg]|
    requires MarksAre(w, mk, walks, at) && BestOk(w, mk, b) && b.dispatch == b.bestDef == Some(d)
    ensures Applicable(w, walks, d) && forall e | e != d :: Rank(w, walks, e) < Rank(w, walks, d)
  {
    hide FoundAt, Digits, Pack;
    assert Complete(w, mk, d);
    CompleteIsFinal(w, walks, d, at);
    forall e | e != d ensures Rank(w, walks, e) < Rank(w, walks, d) {
      NoneCatchesUp(w, walks, d, e, at);
    }
  }

  /** Not stopping early: the whole search has been made. */
  lemma LateExit(w: World, walks: seq<seq<int>>, mk: Marks, b: Best)
    requires MarksAre(w, mk, walks, End(walks)) && BestOk(w, mk, b)
    ensures b.dispatch.None? ==> forall d :: !Applicable(w, walks, d)
    ensures b.dispatch.Some? ==> IsBest(w, walks, b.dispatch.value)
  {
    hide FoundAt, Digits, Pack;
    forall d ensures Applicable(w, walks, d) <==> Complete(w, mk, d) {
    }
  }

  function Walks(w: World, args: seq<int>): seq<seq<int>> {
    seq(|args|, i requires 0 <= i < |args| => Visited(w, args[i]))
  }

  lemma WalksAreOk(w: World, args: seq<int>)
    requires |args| <= POSITIONS && forall i | 0 <= i < |args| :: |Visited(w, args[i])| <= 31
    ensures WalksOk(w, Walks(w, args))
  {
    var walks := Walks(w, args);
    forall p, k | 0 <= p < |walks| && 0 <= k < |walks[p]| ensures walks[p][k] in w.maps {
      WalkDistinct(w, args[p], Some(Walker(args[p], [], None)), {});
      assert Unseen(w, walks[p], {});
    }
  }

  class Dispatcher {
    /** The object memory as the dispatch that is under way sees it. */
    var w: World
    var currentDispatchId: nat
    // notes in the maps
    var mapIds: map<int, nat>
    var visitedPositions: map<int, set<nat>>
    // notes in the definitions
    var defIds: map<int, nat>
    var foundPositions: map<int, set<nat>>
    var dispatchRanks: map<int, nat>

    function MarksOf(): Marks
      reads this
    {
      Marks(currentDispatchId, defIds, foundPositions, dispatchRanks)
    }

    /** The map was visited for argument i in the dispatch that is under way. */
    predicate WasVisited(m: int, i: nat)
      reads this
    {
      m in mapIds && mapIds[m] == currentDispatchId && m in visitedPositions && i in visitedPositions[m]
    }

    /** Earlier dispatches have smaller numbers. */
    ghost predicate Valid()
      reads this
    {
      && WellFormed(w)
      && (forall m | m in mapIds :: mapIds[m] <= currentDispatchId && m in visitedPositions)
      && (forall d | d in defIds :: defIds[d] <= currentDispatchId && d in foundPositions && d in dispatchRanks)
    }

    /** The first time in a dispatch that a definition is found, what earlier dispatches noted in it is cleared. */
    method ClearNotes(d: int)
      requires Valid()
      modifies this`defIds, this`foundPositions, this`dispatchRanks
      ensures Valid() && d in defIds && defIds[d] == currentDispatchId
      ensures forall e :: MarksOf().Found(e) == old(MarksOf()).Found(e) && MarksOf().RankNow(e) == old(MarksOf()).RankNow(e)
    {
      hide Marks.Found, Marks.RankNow;
      if d !in defIds || defIds[d] != currentDispatchId {
        Cleared(MarksOf(), d);
        defIds := defIds[d := currentDispatchId];
        foundPositions := foundPositions[d := {}];
        dispatchRanks := dispatchRanks[d := 0];
      }
    }

    /** Notes that the definition was found at position i. */
    method NoteFound(d: int, i: nat, depth: nat) returns (isNew: bool)
      requires Valid() && i < POSITIONS && depth < 31
      modifies this`defIds, this`foundPositions, this`dispatchRanks
      ensures Valid() && isNew == (i !in old(MarksOf()).Found(d))
      ensures forall e :: MarksOf().Found(e) == old(MarksOf()).Hit(d, i, 31 - depth).Found(e)
                       && MarksOf().RankNow(e) == old(MarksOf()).Hit(d, i, 31 - depth).RankNow(e)
    {
      hide Marks.Found, Marks.RankNow, Marks.Hit, WellFormed;
      ghost var mk0 := MarksOf();
      ClearNotes(d);
      ghost var mk1 := MarksOf();
      CurrentNotes(mk1, d);
      SameHit(mk0, mk1, d, i, 31 - depth);
      isNew := i !in foundPositions[d];
      if isNew {
        HitIs(mk1, d, i, 31 - depth);
        ghost var ids := defIds;
        dispatchRanks := dispatchRanks[d := dispatchRanks[d] + (31 - depth) * Weight(i)];
        foundPositions := foundPositions[d := foundPositions[d] + {i}];
        assert ids[d := currentDispatchId] == ids;
      } else {
        NotedBefore(mk1, d, i, 31 - depth);
      }
    }

    /** A role of the selector at a map: unless it was found at position i before, its definition is compared with the best. */
    method FindRole(role: Role, i: nat, depth: nat, b: Best) returns (b': Best)
      requires Valid() && i < POSITIONS && depth < 31 && i in role.positions && role.positions <= w.positions(role.def)
      requires BestOk(w, MarksOf(), b)
      modifies this`defIds, this`foundPositions, this`dispatchRanks
      ensures Valid() && BestOk(w, MarksOf(), b')
      ensures forall e :: MarksOf().Found(e) == old(MarksOf()).Hit(role.def, i, 31 - depth).Found(e)
                       && MarksOf().RankNow(e) == old(MarksOf()).Hit(role.def, i, 31 - depth).RankNow(e)
    {
      hide BestOk, Marks.Hit, Marks.Found, Marks.RankNow;
      var d := role.def;
      b' := b;
      ghost var mk := MarksOf();
      var isNew := NoteFound(d, i, depth);
      if isNew {
        JudgeOk(w, mk, b, d, i, 31 - depth);
        SameJudgement(w, mk.Hit(d, i, 31 - depth), MarksOf(), b, d);
        var rank := MarksOf().RankNow(d);
        if Complete(w, MarksOf(), d) && (b.dispatch.None? || rank > MarksOf().RankNow(b.dispatch.value)) {
          b' := b'.(dispatch := Some(d));
          if rank > b'.bestRank {
            b' := b'.(bestRank := rank, bestDef := Some(d));
          }
        }
        if rank >= b'.bestRank && b'.bestDef != Some(d) {
          b' := b'.(bestRank := rank, bestDef := None);
        }
      } else {
        NotedBefore(mk, d, i, 31 - depth);
      }
      SameNotes(w, mk.Hit(d, i, 31 - depth), MarksOf(), b');
    }

    /** All roles of a map. */
    method ScanMap(m: int, i: nat, depth: nat, b: Best, ghost walks: seq<seq<int>>) returns (b': Best)
      requires Valid() && WalksOk(w, walks) && i < |walks| && depth < |walks[i]| && m == walks[i][depth]
      requires MarksAre(w, MarksOf(), walks, Progress(i, depth)) && BestOk(w, MarksOf(), b)
      modifies this`defIds, this`foundPositions, this`dispatchRanks
      ensures Valid() && MarksAre(w, MarksOf(), walks, Progress(i, depth + 1)) && BestOk(w, MarksOf(), b')
    {
      hide BestOk, Marks.Hit, Marks.Found, Marks.RankNow, MarksAre, MarksMid;
      b' := b;
      var j := 0;
      MapStarts(w, MarksOf(), walks, i, depth);
      while j < |w.roles(m)|
        invariant 0 <= j <= |w.roles(m)| && Valid() && BestOk(w, MarksOf(), b') && MarksMid(w, MarksOf(), walks, i, depth, j)
      {
        var role := w.roles(m)[j];
        RoleStep(w, MarksOf(), walks, i, depth, j);
        if i in role.positions {
          ghost var mk := MarksOf();
          b' := FindRole(role, i, depth, b');
          SameMid(w, mk.Hit(role.def, i, 31 - depth), MarksOf(), walks, i, depth, j + 1);
        }
        j := j + 1;
      }
      MapEnds(w, MarksOf(), walks, i, depth);
    }

    /** Marks the map as visited for argument i. */
    method Visit(m: int, i: nat) returns (isNew: bool)
      requires Valid()
      modifies this`mapIds, this`visitedPositions
      ensures Valid() && isNew == !old(WasVisited(m, i)) && WasVisited(m, i)
      ensures forall n, q: nat :: WasVisited(n, q) <==> (old(WasVisited(n, q)) || (n == m && q == i))
    {
      if m !in mapIds || mapIds[m] != currentDispatchId {
        mapIds := mapIds[m := currentDispatchId];
        visitedPositions := visitedPositions[m := {}];
      }
      isNew := i !in visitedPositions[m];
      visitedPositions := visitedPositions[m := visitedPositions[m] + {i}];
    }

    /** The walk for argument i has come past `depth` maps, those in `seen`, and goes on at `next`. */
    ghost predicate Walking(args: seq<int>, i: nat, next: Option<Walker>, seen: set<int>, depth: nat, b: Best)
      reads this
    {
      && Valid() && i < |args| && WalksOk(w, Walks(w, args)) && BestOk(w, MarksOf(), b)
      && depth <= |Visited(w, args[i])| && MarksAre(w, MarksOf(), Walks(w, args), Progress(i, depth))
      && Visited(w, args[i]) == Visited(w, args[i])[..depth] + Walk(w, args[i], next, seen)
      && (forall m, q: nat | WasVisited(m, q) :: q < i || (q == i && m in seen)) && (forall m | m in seen :: WasVisited(m, i))
    }

    lemma WalkingIs(args: seq<int>, i: nat, next: Option<Walker>, seen: set<int>, depth: nat, b: Best)
      requires Walking(args, i, next, seen, depth, b)
      ensures Valid() && BestOk(w, MarksOf(), b) && depth <= |Visited(w, args[i])|
      ensures MarksAre(w, MarksOf(), Walks(w, args), Progress(i, depth)) && forall m, q: nat | WasVisited(m, q) :: q <= i
      ensures next.None? ==> depth == |Visited(w, args[i])|
    {
      hide BestOk, MarksAre, Visited, WalksOk, WellFormed;
      if next.None? {
        WalkStops(w, args[i], seen);
      }
    }

    /** The walk comes to a map that is new to it: its roles are looked at, and then its delegates are to be visited. */
    method NewMap(args: seq<int>, i: nat, arg: int, stack: seq<int>, restricted: Option<nat>, depth: nat, b: Best, ghost seen: set<int>)
      returns (b': Best, stack': seq<int>, restricted': Option<nat>)
      requires Walking(args, i, Some(Walker(arg, stack, restricted)), seen, depth, b) && !WasVisited(w.mapOf(arg), i)
      modifies this`mapIds, this`visitedPositions, this`defIds, this`foundPositions, this`dispatchRanks
      ensures w.mapOf(arg) in w.maps && w.mapOf(arg) !in seen
      ensures Walking(args, i, Pop(stack', restricted'), seen + {w.mapOf(arg)}, depth + 1, b')
    {
      hide BestOk, MarksAre, Visited, Restriction, Pushed, Walk, WalksOk, WellFormed, Walks, Marks.Found, Marks.RankNow;
      ghost var k, walks := Walker(arg, stack, restricted), Walks(w, args);
      var m := w.mapOf(arg);
      WalksAt(w, args, i);
      assert WellFormed(w);
      WalkVisits(w, args[i], k, seen, Visited(w, args[i]), depth);
      RestrictionIs(w, args[i], k);
      restricted' := restricted;
      if w.restricts(m) && arg != args[i] {
        restricted' := Some(|stack|);
      }
      var isNew := Visit(m, i);
      label V:
      b' := ScanMap(m, i, depth, b, walks);
      assert forall n, q: nat :: WasVisited(n, q) <==> old@V(WasVisited(n, q));
      PushedIs(w, k, restricted');
      stack' := stack;
      if restricted'.None? || |stack| <= restricted'.value {
        stack' := stack + w.delegates(m);
      }
      assert Visited(w, args[i]) == Visited(w, args[i])[..depth + 1] + Walk(w, args[i], Pop(stack', restricted'), seen + {m});
      assert forall n, q: nat | WasVisited(n, q) :: q < i || (q == i && n in seen + {m});
      assert forall n | n in seen + {m} :: WasVisited(n, i);
    }

    /** The walk for one argument: early when the best definition can no longer be overtaken. */
    method DispatchArgument(args: seq<int>, i: nat, b: Best) returns (early: bool, b': Best, ghost count: nat)
      requires Valid() && i < |args| && WalksOk(w, Walks(w, args))
      requires MarksAre(w, MarksOf(), Walks(w, args), Progress(i, 0)) && BestOk(w, MarksOf(), b)
      requires forall m, q: nat | WasVisited(m, q) :: q < i
      modifies this`mapIds, this`visitedPositions, this`defIds, this`foundPositions, this`dispatchRanks
      ensures Valid() && BestOk(w, MarksOf(), b') && forall m, q: nat | WasVisited(m, q) :: q <= i
      ensures early ==> b'.dispatch.Some? && b'.dispatch == b'.bestDef
      ensures early ==> count <= |Visited(w, args[i])| && MarksAre(w, MarksOf(), Walks(w, args), Progress(i, count))
      ensures !early ==> MarksAre(w, MarksOf(), Walks(w, args), Progress(i + 1, 0))
    {
      hide BestOk, MarksAre, Visited, Walk, WalksOk, Walks, WellFormed, Walking, Marks.Found, Marks.RankNow, Short;
      b' := b;
      count := 0;
      var arg, depth := args[i], 0;
      var stack: seq<int> := [];
      var restricted: Option<nat> := None;
      ghost var seen: set<int> := {};
      WalkingStarts(args, i, b);
      while true
        invariant Walking(args, i, Some(Walker(arg, stack, restricted)), seen, depth, b')
        decreases w.maps - seen, |stack|
      {
        var m := w.mapOf(arg);
        if !WasVisited(m, i) {
          b', stack, restricted := NewMap(args, i, arg, stack, restricted, depth, b', seen);
          Fewer(w.maps, seen, m);
          seen := seen + {m};
          depth := depth + 1;
          if b'.dispatch.Some? && b'.bestDef == b'.dispatch {
            WalkingIs(args, i, Pop(stack, restricted), seen, depth, b');
            return true, b', depth;
          }
        } else {
          WalkingSkips(args, i, Walker(arg, stack, restricted), seen, depth, b');
        }
        assert Walking(args, i, Pop(stack, restricted), seen, depth, b');
        var n := |stack| - 1;
        if restricted.Some? && n < restricted.value {
          restricted := None;
        }
        if n < 0 || n >= DELEGATION_STACK_SIZE {
          break;
        }
        arg := stack[n];
        stack := stack[..n];
      }
      WalkingEnds(args, i, seen, depth, b');
      early := false;
    }

    lemma WalkingEnds(args: seq<int>, i: nat, seen: set<int>, depth: nat, b: Best)
      requires Walking(args, i, None, seen, depth, b)
      ensures Valid() && BestOk(w, MarksOf(), b) && MarksAre(w, MarksOf(), Walks(w, args), Progress(i + 1, 0))
      ensures forall m, q: nat | WasVisited(m, q) :: q <= i
    {
      assert Short(Walks(w, args));
      hide *;
      WalkingIs(args, i, None, seen, depth, b);
      WalksAt(w, args, i);
      ArgumentEnds(w, MarksOf(), Walks(w, args), i);
    }

    lemma WalkingStarts(args: seq<int>, i: nat, b: Best)
      requires Valid() && i < |args| && WalksOk(w, Walks(w, args))
      requires MarksAre(w, MarksOf(), Walks(w, args), Progress(i, 0)) && BestOk(w, MarksOf(), b)
      requires forall m, q: nat | WasVisited(m, q) :: q < i
      ensures Walking(args, i, Some(Walker(args[i], [], None)), {}, 0, b)
    {
      hide BestOk, MarksAre, Walk, WalksOk, Walks, WellFormed;
      WalkStarts(w, args[i]);
    }

    lemma WalkingSkips(args: seq<int>, i: nat, k: Walker, seen: set<int>, depth: nat, b: Best)
      requires Walking(args, i, Some(k), seen, depth, b) && WasVisited(w.mapOf(k.arg), i)
      ensures Walking(args, i, Pop(k.stack, k.restricted), seen, depth, b)
    {
      hide BestOk, MarksAre, Visited, Walk, WalksOk, Walks, WellFormed;
      WalkSkips(w, args[i], k, seen);
    }

    constructor (w: World)
      requires WellFormed(w)
      ensures Valid() && this.w == w && currentDispatchId == 0
    {
      this.w := w;
      currentDispatchId := 0;
      mapIds, visitedPositions := map[], map[];
      defIds, foundPositions, dispatchRanks := map[], map[], map[];
    }

    /**
     * method_dispatch_on, for a send that is not a resend and selectors that do not access slots, behind the global cache.
     * The memory may be another one than in the dispatch before, and so may the selector; the notes that one left in maps
     * and definitions count for nothing, because its number was another.
     */
    method DispatchIn(w': World, args: seq<int>) returns (dispatch: Option<int>, early: bool)
      requires Valid() && WellFormed(w') && |args| <= POSITIONS && forall i | 0 <= i < |args| :: |Visited(w', args[i])| <= 31
      modifies this
      ensures Valid() && w == w' && currentDispatchId == old(currentDispatchId) + 1
      ensures dispatch.None? ==> forall d :: !Applicable(w', Walks(w', args), d)
      ensures dispatch.Some? ==> IsBest(w', Walks(w', args), dispatch.value)
      ensures early ==> dispatch.Some? && forall e | e != dispatch.value :: Rank(w', Walks(w', args), e) < Rank(w', Walks(w', args), dispatch.value)
    {
      hide BestOk, MarksAre, Visited, Applicable, Rank, WellFormed, Walks, IsBest;
      w := w';
      dispatch, early := Dispatch(args);
    }

    /** The search itself. */
    method Dispatch(args: seq<int>) returns (dispatch: Option<int>, early: bool)
      requires Valid() && |args| <= POSITIONS && forall i | 0 <= i < |args| :: |Visited(w, args[i])| <= 31
      modifies this`currentDispatchId, this`mapIds, this`visitedPositions, this`defIds, this`foundPositions, this`dispatchRanks
      ensures Valid() && currentDispatchId == old(currentDispatchId) + 1
      ensures dispatch.None? ==> forall d :: !Applicable(w, Walks(w, args), d)
      ensures dispatch.Some? ==> IsBest(w, Walks(w, args), dispatch.value)
      ensures early ==> dispatch.Some? && forall e | e != dispatch.value :: Rank(w, Walks(w, args), e) < Rank(w, Walks(w, args), dispatch.value)
    {
      hide BestOk, MarksAre, Visited, Applicable, Rank;
      ghost var walks := Walks(w, args);
      WalksAreOk(w, args);
      currentDispatchId := currentDispatchId + 1;
      var b := Best(None, 0, None);
      NothingFound(w, MarksOf(), walks, b);
      var i := 0;
      while i < |args|
        invariant 0 <= i <= |args| && Valid() && currentDispatchId == old(currentDispatchId) + 1
        invariant BestOk(w, MarksOf(), b) && MarksAre(w, MarksOf(), walks, Progress(i, 0))
        invariant forall m, q: nat | WasVisited(m, q) :: q < i
      {
        var stop;
        ghost var k;
        stop, b, k := DispatchArgument(args, i, b);
        if stop {
          EarlyExit(w, walks, MarksOf(), Progress(i, k), b, b.dispatch.value);
          BestAlone(w, walks, b.dispatch.value);
          return b.dispatch, true;
        }
        i := i + 1;
      }
      LateExit(w, walks, MarksOf(), b);
      return b.dispatch, false;
    }
  }

  lemma BestAlone(w: World, walks: seq<seq<int>>, d: int)
    requires Applicable(w, walks, d) && forall e | e != d :: Rank(w, walks, e) < Rank(w, walks, d)
    ensures IsBest(w, walks, d)
  {
    hide Applicable, Rank;
  }

  /** At the beginning of a dispatch no note counts. */
  lemma NothingFound(w: World, mk: Marks, walks: seq<seq<int>>, b: Best)
    requires b == Best(None, 0, None) && forall d | d in mk.ids :: mk.ids[d] < mk.current
    ensures BestOk(w, mk, b) && MarksAre(w, mk, walks, Progress(0, 0))
  {
    forall d ensures FoundAt(w, walks, d, Progress(0, 0)) == {} && Digits(w, walks, d, Progress(0, 0)) == [0, 0, 0, 0, 0, 0] {
    }
  }

  lemma SameMid(w: World, mk: Marks, mk': Marks, walks: seq<seq<int>>, i: nat, k: nat, j: nat)
    requires i < |walks| && k < |walks[i]| && MarksMid(w, mk, walks, i, k, j)
    requires forall e :: mk.Found(e) == mk'.Found(e) && mk.RankNow(e) == mk'.RankNow(e)
    ensures MarksMid(w, mk', walks, i, k, j)
  {
    hide Marks.Found, Marks.RankNow, FoundAt, Digits, Pack, HitBy;
    forall d
      ensures var at := if HitBy(w, walks[i][k], j, d, i) then Progress(i, k + 1) else Progress(i, k);
        mk'.Found(d) == FoundAt(w, walks, d, at) && mk'.RankNow(d) == Pack(Digits(w, walks, d, at))
    {
      assert mk.Found(d) == mk'.Found(d);
    }
  }

  lemma WalkStarts(w: World, arg: int)
    ensures Visited(w, arg) == Visited(w, arg)[..0] + Walk(w, arg, Some(Walker(arg, [], None)), {})
  {
    assert Visited(w, arg)[..0] == [];
  }

  lemma RestrictionIs(w: World, first: int, k: Walker)
    ensures Restriction(w, first, k) == if w.restricts(w.mapOf(k.arg)) && k.arg != first then Some(|k.stack|) else k.restricted
  {
  }

  lemma PushedIs(w: World, k: Walker, restricted: Option<nat>)
    ensures Pushed(w, k, restricted) == if restricted.None? || |k.stack| <= restricted.value then k.stack + w.delegates(w.mapOf(k.arg)) else k.stack
  {
  }

  /** The walk comes to a map it has not seen: it is the next one on the list. */
  lemma WalkVisits(w: World, first: int, k: Walker, seen: set<int>, walk: seq<int>, depth: nat)
    requires WellFormed(w) && w.mapOf(k.arg) !in seen && depth <= |walk| && walk == walk[..depth] + Walk(w, first, Some(k), seen)
    ensures depth < |walk| && walk[depth] == w.mapOf(k.arg) && w.mapOf(k.arg) in w.maps
    ensures var r := Restriction(w, first, k);
      walk == walk[..depth + 1] + Walk(w, first, Pop(Pushed(w, k, r), r), seen + {w.mapOf(k.arg)})
  {
    var m, r := w.mapOf(k.arg), Restriction(w, first, k);
    Fewer(w.maps, seen, m);
    var rest := Walk(w, first, Pop(Pushed(w, k, r), r), seen + {m});
    assert Walk(w, first, Some(k), seen) == [m] + rest;
    assert walk[..depth] + ([m] + rest) == walk[..depth] + [m] + rest;
    assert walk[..depth + 1] == walk[..depth] + [m];
  }

  lemma WalkStops(w: World, first: int, seen: set<int>)
    ensures Walk(w, first, None, seen) == []
  {
  }

  lemma WalksAt(w: World, args: seq<int>, i: nat)
    requires i < |args|
    ensures |Walks(w, args)| == |args| && Walks(w, args)[i] == Visited(w, args[i])
  {
  }

  lemma WalkSkips(w: World, first: int, k: Walker, seen: set<int>)
    requires w.mapOf(k.arg) in seen
    ensures Walk(w, first, Some(k), seen) == Walk(w, first, Pop(k.stack, k.restricted), seen)
  {
  }

  lemma NotedBefore(mk: Marks, d: int, i: nat, digit: nat)
    requires i < POSITIONS && i in mk.Found(d)
    ensures mk.Hit(d, i, digit) == mk
  {
  }

  lemma Cleared(mk: Marks, d: int)
    requires d !in mk.ids || mk.ids[d] != mk.current
    ensures var mk' := Marks(mk.current, mk.ids[d := mk.current], mk.found[d := {}], mk.ranks[d := 0]);
      forall e :: mk'.Found(e) == mk.Found(e) && mk'.RankNow(e) == mk.RankNow(e)
  {
  }

  lemma CurrentNotes(mk: Marks, d: int)
    ensures d in mk.ids && mk.ids[d] == mk.current && d in mk.found && d in mk.ranks ==> mk.Found(d) == mk.found[d] && mk.RankNow(d) == mk.ranks[d]
  {
  }

  lemma HitIs(mk: Marks, d: int, i: nat, digit: nat)
    requires i < POSITIONS && i !in mk.Found(d)
    ensures mk.Hit(d, i, digit)
         == Marks(mk.current, mk.ids[d := mk.current], mk.found[d := mk.Found(d) + {i}], mk.ranks[d := mk.RankNow(d) + digit * Weight(i)])
  {
  }

  lemma SameHit(mk: Marks, mk': Marks, d: int, i: nat, digit: nat)
    requires i < POSITIONS && forall e :: mk.Found(e) == mk'.Found(e) && mk.RankNow(e) == mk'.RankNow(e)
    ensures forall e :: mk.Hit(d, i, digit).Found(e) == mk'.Hit(d, i, digit).Found(e)
                     && mk.Hit(d, i, digit).RankNow(e) == mk'.Hit(d, i, digit).RankNow(e)
  {
    hide Marks.Found, Marks.RankNow, Marks.Hit;
    forall e ensures mk.Hit(d, i, digit).Found(e) == mk'.Hit(d, i, digit).Found(e)
                  && mk.Hit(d, i, digit).RankNow(e) == mk'.Hit(d, i, digit).RankNow(e)
    {
      assert mk.Found(e) == mk'.Found(e) && mk.Found(d) == mk'.Found(d);
      if i in mk.Found(d) {
        NotedBefore(mk, d, i, digit);
        NotedBefore(mk', d, i, digit);
      } else if e == d {
        HitSelf(mk, d, i, digit);
        HitSelf(mk', d, i, digit);
      } else {
        HitOthers(mk, d, i, digit, e);
        HitOthers(mk', d, i, digit, e);
      }
    }
  }

  lemma SameJudgement(w: World, mk: Marks, mk': Marks, b: Best, d: int)
    requires forall e :: mk.Found(e) == mk'.Found(e) && mk.RankNow(e) == mk'.RankNow(e)
    ensures Judge(w, mk, b, d) == Judge(w, mk', b, d)
  {
    hide Marks.Found, Marks.RankNow;
  }

  /** Marks that say the same, whatever else they hold. */
  lemma SameNotes(w: World, mk: Marks, mk': Marks, b: Best)
    requires forall d :: mk.Found(d) == mk'.Found(d) && mk.RankNow(d) == mk'.RankNow(d)
    ensures BestOk(w, mk, b) <==> BestOk(w, mk', b)
  {
    hide Marks.Found, Marks.RankNow;
    forall d ensures Complete(w, mk, d) <==> Complete(w, mk', d) {
    }
  }
}

/** What survives collections: each live object is somewhere, with the same contents, its references renamed. */
module Survival {
  import opened HeapModel
  import opened Marking
  import opened Roots
  import opened Forwarding
  import opened Collecting
  import opened YoungCollecting

  /** What tracing starts from, without the bounds of spaces. */
  datatype Anchor = Anchor(specialObjects: int, interpreter: int, stackPointer: nat)

  ghost predicate Anchored(mem: Memory, a: Anchor) {
    RootsIn(mem, a.specialObjects, a.interpreter, a.stackPointer)
  }

  /** Pinned objects, special objects and what is in use of the stack. */
  ghost function RootsOf(mem: Memory, a: Anchor): set<int>
    requires Anchored(mem, a)
  {
    (set x | x in mem && IsPinned(mem, x)) + RefsIn(mem[a.specialObjects].oops) + RefsIn(mem[StackOf(mem, a.interpreter)].oops[..a.stackPointer])
  }

  /** The special objects array and the interpreter are reachable themselves. */
  ghost predicate Grounded(mem: Memory, a: Anchor) {
    Anchored(mem, a) && Live(mem, RootsOf(mem, a), a.specialObjects) && Live(mem, RootsOf(mem, a), a.interpreter)
  }

  function AnchorOf(v: View): Anchor {
    Anchor(v.specialObjects, v.interpreter, v.stackPointer)
  }

  function HereAnchor(h: Heap): Anchor
    reads h
  {
    Anchor(h.specialObjects, h.interpreter, h.stackPointer)
  }

  lemma FullRootsAre(v: View, mem: Memory)
    requires HasRoots(v, mem) && forall k | k in mem :: v.oldStart <= k < v.oldEnd || v.youngStart <= k < v.youngEnd
    ensures Anchored(mem, AnchorOf(v)) && FullRoots(v, mem) == RootsOf(mem, AnchorOf(v))
  {
    var xs := mem[v.specialObjects].oops;
    forall x ensures x in FullRoots(v, mem) <==> x in RootsOf(mem, AnchorOf(v)) {
    }
  }

  /** Every live object of mem is in mem', where place says, with its contents but for the mark; no two are at one address. */
  ghost predicate Represents(mem: Memory, roots: set<int>, mem': Memory, place: map<int, int>) {
    && (forall x | Live(mem, roots, x) :: Represented(mem, mem', place, x))
    && (forall x, y | Live(mem, roots, x) && Live(mem, roots, y) && Forward(place, x) == Forward(place, y) :: x == y)
  }

  ghost predicate Represented(mem: Memory, mem': Memory, place: map<int, int>, x: int) {
    IsUsed(mem, x) && IsUsed(mem', Forward(place, x)) && SameButMark(Moved(place, mem[x]), mem'[Forward(place, x)])
  }

  lemma MovedNowhere(b: Block)
    requires b.Used?
    ensures Moved(map[], b) == b
  {
    assert MoveOops(map[], b.oops) == b.oops;
  }

  lemma Unmoved(mem: Memory, roots: set<int>)
    requires Sound(mem) && forall r | r in roots :: IsUsed(mem, r)
    ensures Represents(mem, roots, mem, map[])
  {
    hide Live;
    forall x | Live(mem, roots, x) ensures Represented(mem, mem, map[], x) {
      LiveUsed(mem, roots, x);
      MovedNowhere(mem[x]);
    }
  }

  lemma FullRepresents(mem: Memory, roots: set<int>, mem': Memory, fwd: map<int, int>, color: bool)
    requires Isomorphic(mem, roots, mem', fwd, color)
    ensures Represents(mem, roots, mem', fwd)
  {
    hide Live;
    forall x | Live(mem, roots, x) ensures Represented(mem, mem', fwd, x) {
      assert mem'[Forward(fwd, x)] == Transferred(fwd, mem[x], color);
    }
  }

  lemma YoungRepresents(v: View, mem0: Memory, mem: Memory)
    requires Layout(mem0, v.oldStart, v.oldEnd, v.youngStart, v.youngEnd) && HasRoots(v, mem0) && YoungKept(v, mem0, mem)
    ensures Represents(mem0, FullRoots(v, mem0), mem, map[])
  {
    RootsUsed(v, mem0);
    hide Reachable, Space, FullRoots, AllRoots;
    forall x | Live(mem0, FullRoots(v, mem0), x) ensures Represented(mem0, mem, map[], x) {
      LiveUsed(mem0, FullRoots(v, mem0), x);
      MovedNowhere(mem0[x]);
      FullIsAll(v, mem0, x);
      assert v.oldStart <= x < v.oldEnd || v.youngStart <= x < v.youngEnd;
    }
  }

  /** What a full collection keeps a young one keeps, too. */
  lemma FullIsAll(v: View, mem: Memory, x: int)
    requires HasRoots(v, mem) && Live(mem, FullRoots(v, mem), x)
    ensures Live(mem, AllRoots(v, mem), x)
  {
    forall r | r in FullRoots(v, mem) ensures r in AllRoots(v, mem) {
    }
    MoreReachable(mem, mem, FullRoots(v, mem), AllRoots(v, mem), x);
  }

  /** More roots, and blocks that refer to no less, reach no less. */
  lemma MoreReachable(mem: Memory, mem': Memory, roots: set<int>, roots': set<int>, x: int)
    requires roots <= roots' && Live(mem, roots, x)
    requires forall k, y | k in mem && Points(mem[k], y) :: k in mem' && Points(mem'[k], y)
    ensures Live(mem', roots', x)
  {
    var p :| IsPath(mem, mem.Keys, p) && p[0] in roots && p[|p| - 1] == x;
    hide Points;
    forall i | 0 <= i < |p| - 1 ensures p[i] in mem' && Points(mem'[p[i]], p[i + 1]) {
      var k, y := p[i], p[i + 1];
      assert k in mem && Points(mem[k], y);
      assert k in mem' && Points(mem'[k], y);
    }
    assert IsPath(mem', mem'.Keys, p);
  }

  // ---------- one after the other ----------

  function Then(p: map<int, int>, q: map<int, int>): map<int, int> {
    map x | x in p.Keys + q.Keys :: Forward(q, Forward(p, x))
  }

  lemma ForwardThen(p: map<int, int>, q: map<int, int>, x: int)
    ensures Forward(Then(p, q), x) == Forward(q, Forward(p, x))
  {
  }

  lemma MovedThen(p: map<int, int>, q: map<int, int>, b: Block)
    requires b.Used?
    ensures Moved(Then(p, q), b) == Moved(q, Moved(p, b))
  {
    ForwardThen(p, q, b.mapOop);
    forall i | 0 <= i < |b.oops| ensures MoveOop(Then(p, q), b.oops[i]) == MoveOop(q, MoveOop(p, b.oops[i])) {
      if b.oops[i].Ref? {
        ForwardThen(p, q, b.oops[i].addr);
      }
    }
  }

  lemma MovedSameMark(q: map<int, int>, b: Block, c: Block)
    requires b.Used? && SameButMark(b, c)
    ensures c.Used? && SameButMark(Moved(q, b), Moved(q, c))
  {
  }

  /** Where the anchor is in the other heap. */
  function Anchoring(a: Anchor, place: map<int, int>): Anchor {
    Anchor(Forward(place, a.specialObjects), Forward(place, a.interpreter), a.stackPointer)
  }

  lemma LiveRoot(mem: Memory, roots: set<int>, r: int)
    requires r in roots
    ensures Live(mem, roots, r)
  {
    RootReachable(mem, mem.Keys, roots, r);
  }

  lemma StackLive(mem: Memory, a: Anchor)
    requires Grounded(mem, a)
    ensures Live(mem, RootsOf(mem, a), StackOf(mem, a.interpreter))
  {
    hide Live, RootsOf;
    var s := StackOf(mem, a.interpreter);
    assert Ref(s) in mem[a.interpreter].oops;
    LiveClosed(mem, RootsOf(mem, a), a.interpreter, s);
  }

  /** The anchor holds in the other heap. */
  lemma AnchorCarried(mem: Memory, a: Anchor, mem': Memory, place: map<int, int>)
    requires Grounded(mem, a) && Represents(mem, RootsOf(mem, a), mem', place)
    ensures Anchored(mem', Anchoring(a, place))
    ensures StackOf(mem', Forward(place, a.interpreter)) == Forward(place, StackOf(mem, a.interpreter))
    ensures mem'[Forward(place, a.specialObjects)].oops == MoveOops(place, mem[a.specialObjects].oops)
    ensures mem'[Forward(place, StackOf(mem, a.interpreter))].oops == MoveOops(place, mem[StackOf(mem, a.interpreter)].oops)
  {
    hide Live, RootsOf;
    StackLive(mem, a);
    var s := StackOf(mem, a.interpreter);
    assert Represented(mem, mem', place, a.specialObjects) && Represented(mem, mem', place, a.interpreter) && Represented(mem, mem', place, s);
    assert MoveOops(place, mem[a.interpreter].oops)[STACK_SLOT] == Ref(Forward(place, s));
  }

  lemma RootCarried(mem: Memory, a: Anchor, mem': Memory, place: map<int, int>, r: int)
    requires Grounded(mem, a) && Represents(mem, RootsOf(mem, a), mem', place) && r in RootsOf(mem, a)
    ensures Anchored(mem', Anchoring(a, place)) && Forward(place, r) in RootsOf(mem', Anchoring(a, place))
  {
    AnchorCarried(mem, a, mem', place);
    LiveRoot(mem, RootsOf(mem, a), r);
    hide Live;
    assert Represented(mem, mem', place, r);
    if !IsPinned(mem, r) {
      if r in RefsIn(mem[a.specialObjects].oops) {
        var xs := mem[a.specialObjects].oops;
        assert xs[..|xs|] == xs && MoveOops(place, xs)[..|xs|] == MoveOops(place, xs);
        MovedRefs(place, xs, |xs|, r);
      } else {
        MovedRefs(place, mem[StackOf(mem, a.interpreter)].oops, a.stackPointer, r);
      }
    }
  }

  /** What is live is live in the other heap. */
  lemma LiveCarried(mem: Memory, a: Anchor, mem': Memory, place: map<int, int>, x: int)
    requires Grounded(mem, a) && Represents(mem, RootsOf(mem, a), mem', place) && Live(mem, RootsOf(mem, a), x)
    ensures Anchored(mem', Anchoring(a, place)) && Live(mem', RootsOf(mem', Anchoring(a, place)), Forward(place, x))
  {
    AnchorCarried(mem, a, mem', place);
    hide Live, RootsOf, Represents, Grounded, Anchored;
    var roots, roots' := RootsOf(mem, a), RootsOf(mem', Anchoring(a, place));
    var s := set k | k in mem && Live(mem, roots, k) && Live(mem', roots', Forward(place, k));
    forall r | r in roots ensures r in s {
      LiveRoot(mem, roots, r);
      IsRepresented(mem, roots, mem', place, r);
      RootCarried(mem, a, mem', place, r);
      LiveRoot(mem', roots', Forward(place, r));
    }
    forall k, y | k in s && k in mem && Points(mem[k], y) ensures y in s {
      LiveClosed(mem, roots, k, y);
      IsRepresented(mem, roots, mem', place, k);
      IsRepresented(mem, roots, mem', place, y);
      CarriedPoints(mem, mem', place, k, y);
      LiveClosed(mem', roots', Forward(place, k), Forward(place, y));
    }
    IsLive(mem, roots, x);
    ClosedHoldsReachable(mem, mem.Keys, roots, s, x);
  }

  lemma IsRepresented(mem: Memory, roots: set<int>, mem': Memory, place: map<int, int>, x: int)
    requires Represents(mem, roots, mem', place) && Live(mem, roots, x)
    ensures x in mem && Represented(mem, mem', place, x)
  {
    hide Live;
  }

  lemma CarriedPoints(mem: Memory, mem': Memory, place: map<int, int>, k: int, y: int)
    requires Represented(mem, mem', place, k) && Points(mem[k], y)
    ensures Forward(place, k) in mem' && Points(mem'[Forward(place, k)], Forward(place, y))
  {
    var b := mem[k];
    if b.mapOop != y {
      var i :| 0 <= i < |b.oops| && b.oops[i] == Ref(y);
      assert mem'[Forward(place, k)].oops[i] == Ref(Forward(place, y));
    }
  }

  /** And so it stays grounded. */
  lemma GroundedCarried(mem: Memory, a: Anchor, mem': Memory, place: map<int, int>)
    requires Grounded(mem, a) && Represents(mem, RootsOf(mem, a), mem', place)
    ensures Grounded(mem', Anchoring(a, place))
  {
    hide Live, RootsOf, Represents;
    AnchorCarried(mem, a, mem', place);
    LiveCarried(mem, a, mem', place, a.specialObjects);
    LiveCarried(mem, a, mem', place, a.interpreter);
  }

  /** One survival after another is a survival. */
  lemma SurvivesBoth(mem: Memory, a: Anchor, mem1: Memory, p: map<int, int>, mem2: Memory, q: map<int, int>)
    requires Grounded(mem, a) && Represents(mem, RootsOf(mem, a), mem1, p)
    requires Anchored(mem1, Anchoring(a, p)) && Represents(mem1, RootsOf(mem1, Anchoring(a, p)), mem2, q)
    ensures Represents(mem, RootsOf(mem, a), mem2, Then(p, q))
  {
    hide Live, RootsOf, Moved, SameButMark, RootsIn;
    var roots := RootsOf(mem, a);
    forall x | Live(mem, roots, x) ensures Represented(mem, mem2, Then(p, q), x) && Live(mem1, RootsOf(mem1, Anchoring(a, p)), Forward(p, x)) {
      LiveCarried(mem, a, mem1, p, x);
      ForwardThen(p, q, x);
      BothRepresented(mem, mem1, mem2, p, q, x);
    }
    forall x, y | Live(mem, roots, x) && Live(mem, roots, y) && Forward(Then(p, q), x) == Forward(Then(p, q), y) ensures x == y {
      ForwardThen(p, q, x);
      ForwardThen(p, q, y);
    }
  }

  lemma BothRepresented(mem: Memory, mem1: Memory, mem2: Memory, p: map<int, int>, q: map<int, int>, x: int)
    requires Represented(mem, mem1, p, x) && Represented(mem1, mem2, q, Forward(p, x))
    ensures Represented(mem, mem2, Then(p, q), x)
  {
    hide Moved, MoveOops;
    ForwardThen(p, q, x);
    MovedThen(p, q, mem[x]);
    MovedSameMark(q, Moved(p, mem[x]), mem1[Forward(p, x)]);
  }

  // ---------- with the bounds of the spaces ----------

  /** Live objects survive; special objects, the interpreter and pinned objects stay where they are. */
  ghost predicate Survived(v: View, mem: Memory, mem': Memory, fwd: map<int, int>)
    requires HasRoots(v, mem)
  {
    && Represents(mem, FullRoots(v, mem), mem', fwd)
    && Forward(fwd, v.specialObjects) == v.specialObjects && Forward(fwd, v.interpreter) == v.interpreter
    && forall x | IsPinned(mem, x) :: Forward(fwd, x) == x
  }

  ghost predicate InBounds(v: View, mem: Memory) {
    forall k | k in mem :: v.oldStart <= k < v.oldEnd || v.youngStart <= k < v.youngEnd
  }

  lemma RootsGround(v: View, mem: Memory)
    requires RootsStay(v, mem) && InBounds(v, mem)
    ensures Grounded(mem, AnchorOf(v)) && FullRoots(v, mem) == RootsOf(mem, AnchorOf(v))
  {
    hide Live;
    FullRootsAre(v, mem);
  }

  lemma PinnedLive(v: View, mem: Memory, x: int)
    requires HasRoots(v, mem) && InBounds(v, mem) && IsPinned(mem, x)
    ensures Live(mem, FullRoots(v, mem), x)
  {
    LiveRoot(mem, FullRoots(v, mem), x);
  }

  lemma NothingYet(v: View, mem: Memory)
    requires Layout(mem, v.oldStart, v.oldEnd, v.youngStart, v.youngEnd) && HasRoots(v, mem)
    ensures Survived(v, mem, mem, map[])
  {
    RootsUsed(v, mem);
    Unmoved(mem, FullRoots(v, mem));
  }

  lemma AfterFullGc(v: View, mem: Memory, mem': Memory, fwd: map<int, int>, color: bool, oldEnd: int)
    requires RootsStay(v, mem) && InBounds(v, mem) && Isomorphic(mem, FullRoots(v, mem), mem', fwd, color)
    requires MovesYoung(v, mem, FullRoots(v, mem), fwd, oldEnd) && (v.oldEnd <= v.youngStart || v.youngEnd <= v.oldStart)
    ensures Survived(v, mem, mem', fwd)
  {
    hide Live;
    FullRepresents(mem, FullRoots(v, mem), mem', fwd, color);
  }

  lemma AfterYoungGc(v: View, mem: Memory, mem': Memory)
    requires Layout(mem, v.oldStart, v.oldEnd, v.youngStart, v.youngEnd) && HasRoots(v, mem) && YoungKept(v, mem, mem')
    ensures Survived(v, mem, mem', map[])
  {
    YoungRepresents(v, mem, mem');
  }

  /** What survives one collection and then another survives both. */
  lemma SurvivedThen(v: View, mem: Memory, v1: View, mem1: Memory, p: map<int, int>, mem2: Memory, q: map<int, int>)
    requires RootsStay(v, mem) && InBounds(v, mem) && RootsStay(v1, mem1) && InBounds(v1, mem1) && AnchorOf(v) == AnchorOf(v1)
    requires Survived(v, mem, mem1, p) && Survived(v1, mem1, mem2, q)
    ensures Survived(v, mem, mem2, Then(p, q))
  {
    hide Live, FullRoots, RootsOf, Represents, RootsStay, InBounds;
    RootsGround(v, mem);
    RootsGround(v1, mem1);
    SurvivesBoth(mem, AnchorOf(v), mem1, p, mem2, q);
    ForwardThen(p, q, v.specialObjects);
    ForwardThen(p, q, v.interpreter);
    forall x | IsPinned(mem, x) ensures Forward(Then(p, q), x) == x {
      ForwardThen(p, q, x);
      PinnedLive(v, mem, x);
      StillPinned(mem, FullRoots(v, mem), mem1, p, x);
    }
  }

  lemma StillPinned(mem: Memory, roots: set<int>, mem': Memory, fwd: map<int, int>, x: int)
    requires Represents(mem, roots, mem', fwd) && Live(mem, roots, x) && IsPinned(mem, x)
    ensures IsPinned(mem', Forward(fwd, x))
  {
    hide Live;
    assert Represented(mem, mem', fwd, x);
  }
}

/** heap_full_gc: what is reachable afterwards is an isomorphic copy of what was reachable before. */
module Collecting {
  import opened HeapModel
  import opened Marking
  import opened Roots
  import opened Sweeping
  import opened Allocating
  import opened Forwarding
  import opened Tenuring

  /** The roots of a full collection: pinned objects, special objects and the interpreter's stack. */
  ghost function FullRoots(v: View, mem: Memory): set<int>
    requires HasRoots(v, mem)
  {
    PinnedIn(mem, v.youngStart, v.youngEnd) + PinnedIn(mem, v.oldStart, v.oldEnd)
    + SpecialRoots(v, mem, true) + StackRoots(v, mem, true)
  }

  /** Exactly the pinned objects, the special objects and what the stack refers to below the stack pointer. */
  lemma FullRootsExactly(v: View, mem: Memory, x: int)
    requires HasRoots(v, mem)
    ensures x in FullRoots(v, mem) <==>
              || (x in mem && mem[x].Used? && mem[x].pins > 0 && (v.youngStart <= x < v.youngEnd || v.oldStart <= x < v.oldEnd))
              || (exists i :: 0 <= i < |mem[v.specialObjects].oops| && mem[v.specialObjects].oops[i] == Ref(x))
              || exists i :: 0 <= i < v.stackPointer && mem[StackOf(mem, v.interpreter)].oops[i] == Ref(x)
  {
    var xs, ys := mem[v.specialObjects].oops, mem[StackOf(mem, v.interpreter)].oops;
    if i :| 0 <= i < |xs| && xs[i] == Ref(x) {
      assert x in RefsIn(xs);
    }
    if i :| 0 <= i < v.stackPointer && ys[i] == Ref(x) {
      assert ys[..v.stackPointer][i] == Ref(x);
      assert x in RefsIn(ys[..v.stackPointer]);
    }
  }

  /** Reachable from the roots along maps, slots and array elements. */
  ghost predicate Live(mem: Memory, roots: set<int>, x: int) {
    Reachable(mem, mem.Keys, roots, x)
  }

  /** Every old object that refers to a young one is remembered, and only old objects in use are. */
  ghost predicate RememberedIn(v: View, mem: Memory, remembered: set<int>) {
    && (forall k | v.oldStart <= k < v.oldEnd && IsUsed(mem, k) && RefersTo(mem[k], v.youngStart, v.youngEnd) :: k in remembered)
    && (forall k | k in remembered :: v.oldStart <= k < v.oldEnd && IsUsed(mem, k))
  }

  ghost predicate RememberedOk(h: Heap)
    reads h
  {
    RememberedIn(ViewOf(h), h.mem, h.remembered)
  }

  /** Only old objects in use are remembered; some may be missing. */
  ghost predicate OnlyOldIn(v: View, mem: Memory, remembered: set<int>) {
    forall k | k in remembered :: v.oldStart <= k < v.oldEnd && IsUsed(mem, k)
  }

  ghost predicate OnlyOld(h: Heap)
    reads h
  {
    OnlyOldIn(ViewOf(h), h.mem, h.remembered)
  }

  /** The live old objects that refer to pinned young ones are remembered. */
  ghost predicate PinsNoticed(v: View, mem: Memory, roots: set<int>, remembered: set<int>) {
    forall k, y | v.oldStart <= k < v.oldEnd && Live(mem, roots, k) && k in mem && Points(mem[k], y) && v.youngStart <= y < v.youngEnd && IsPinned(mem, y) ::
      k in remembered
  }

  /** As they are if nothing old is missing, and if no young object is pinned. */
  lemma NoticedIf(v: View, mem: Memory, roots: set<int>, remembered: set<int>)
    requires RememberedIn(v, mem, remembered) || forall y | v.youngStart <= y < v.youngEnd :: !IsPinned(mem, y)
    ensures PinsNoticed(v, mem, roots, remembered)
  {
    hide Live;
    forall k, y | v.oldStart <= k < v.oldEnd && Live(mem, roots, k) && k in mem && Points(mem[k], y) && v.youngStart <= y < v.youngEnd && IsPinned(mem, y)
      ensures k in remembered
    {
      assert RefersTo(mem[k], v.youngStart, v.youngEnd);
    }
  }

  lemma RememberedOnlyOld(v: View, mem: Memory, remembered: set<int>)
    requires RememberedIn(v, mem, remembered)
    ensures OnlyOldIn(v, mem, remembered)
  {
  }

  ghost predicate CursorsOk(h: Heap)
    reads h
  {
    && Cursor(h.mem, h.memoryOld, h.memoryOld + h.memoryOldSize, h.nextOldFree)
    && Cursor(h.mem, h.memoryYoung, h.memoryYoung + h.memoryYoungSize, h.nextFree)
  }

  lemma SameRoots(v: View, mem: Memory, mem': Memory)
    requires SameButMarks(mem, mem') && HasRoots(v, mem)
    ensures HasRoots(v, mem') && FullRoots(v, mem') == FullRoots(v, mem)
    ensures forall a, b :: PinnedIn(mem', a, b) == PinnedIn(mem, a, b)
    ensures forall o :: SpecialRoots(v, mem', o) == SpecialRoots(v, mem, o) && StackRoots(v, mem', o) == StackRoots(v, mem, o)
  {
    forall a, b ensures PinnedIn(mem', a, b) == PinnedIn(mem, a, b) {
      SamePinned(mem, mem', a, b);
    }
  }

  lemma SamePinned(mem: Memory, mem': Memory, a: int, b: int)
    requires SameButMarks(mem, mem')
    ensures PinnedIn(mem', a, b) == PinnedIn(mem, a, b)
  {
    forall x ensures x in PinnedIn(mem', a, b) <==> x in PinnedIn(mem, a, b) {
      if x in mem {
        assert SameButMark(mem[x], mem'[x]);
      }
    }
  }

  /** Nothing is marked before tracing begins. */
  lemma NothingMarked(mem: Memory, color: bool, a: int, b: int, c: int, d: int)
    requires Unmarked(mem, color, a, b) && Unmarked(mem, color, c, d) && forall k | k in mem :: a <= k < b || c <= k < d
    ensures Marked(mem, color) == {}
  {
  }

  /** Unmarking one space keeps the other one unmarked. */
  lemma StillUnmarked(mem: Memory, mem': Memory, color: bool, a: int, b: int, c: int, d: int)
    requires Unmarked(mem, color, a, b) && SameOutside(mem, mem', c, d) && (b <= c || d <= a)
    ensures Unmarked(mem', color, a, b)
  {
  }

  /** The first half of heap_full_gc: afterwards an object is marked if and only if it can be reached. */
  method MarkAll(h: Heap)
    requires h.Valid() && h.markStack.Length > 0
    modifies h`mem, h`markColor, h`markStack, h`markStackPosition, h`pushed, h`before, h.markStack
    ensures h.Valid() && SameButMarks(old(h.mem), h.mem)
    ensures forall x :: IsMarked(h.mem, h.markColor, x) <==> Live(old(h.mem), old(FullRoots(ViewOf(h), h.mem)), x)
    ensures Distinct(h.pushed) && Elements(h.pushed) == Marked(h.mem, h.markColor)
    ensures h.markStack.Length > 0 && (h.markStack == old(h.markStack) || fresh(h.markStack))
  {
    hide SameButMarks, Live, Layout, RootsIn, Marked, FullRoots, Log, Distinct, IsMarked;
    ghost var mem0 := h.mem;
    UnmarkBoth(h);
    ghost var mem1 := h.mem;
    ghost var v := ViewOf(h);
    SameRoots(v, mem0, mem1);
    MarkRoots(h);
    ghost var mem2 := h.mem;
    SameButMarksTrans(mem0, mem1, mem2);
    assert h.Followed(true) == mem2.Keys;
    h.MarkRecursively(true);
    SameButMarksTrans(mem0, mem2, h.mem);
    MarkedAreLive(v, h.markColor, mem0, mem2, h.mem);
    assert Elements(h.pushed) == Marked(h.mem, h.markColor) by { LogComplete(h.pushed, Marked(h.mem, h.markColor), h.Pending()); }
    assert Distinct(h.pushed) by { LogComplete(h.pushed, Marked(h.mem, h.markColor), h.Pending()); }
  }

  lemma LogComplete(pushed: seq<int>, marked: set<int>, pending: seq<int>)
    requires Log(pushed, {}, marked, pending)
    ensures Distinct(pushed) && Elements(pushed) == marked
  {
  }

  lemma MarkedAreLive(v: View, color: bool, mem0: Memory, mem2: Memory, mem3: Memory)
    requires SameButMarks(mem0, mem2) && HasRoots(v, mem0)
    requires Marked(mem2, color) == FullRoots(v, mem0)
    requires forall x :: x in Marked(mem3, color) <==> Reachable(mem2, mem2.Keys, Marked(mem2, color), x)
    ensures forall x :: IsMarked(mem3, color, x) <==> Live(mem0, FullRoots(v, mem0), x)
  {
    hide FullRoots, Reachable, SameButMarks;
    SameKeys(mem0, mem2);
    forall x ensures IsMarked(mem3, color, x) <==> Live(mem0, FullRoots(v, mem0), x) {
      SameReachable(mem0, mem2, mem0.Keys, FullRoots(v, mem0), x);
      assert x in Marked(mem3, color) <==> IsMarked(mem3, color, x);
    }
  }

  /** heap_start_gc, and heap_unmark_all for both spaces. */
  method UnmarkBoth(h: Heap)
    requires h.Valid() && h.markStack.Length > 0
    modifies h`mem, h`markColor, h`markStackPosition, h`pushed, h`before
    ensures h.Tracing() && SameButMarks(old(h.mem), h.mem)
    ensures Marked(h.mem, h.markColor) == {} && h.before == {} && h.markStackPosition == 0
  {
    hide SameButMarks, Layout, RootsIn, Marked, Log;
    ghost var mem0, v := h.mem, ViewOf(h);
    StartGc(h);
    UnmarkSpaces(h);
    SameHeap(v, mem0, h.mem);
    h.pushed, h.before := [], {};
    NothingPushed(h.Pending());
  }

  lemma SameHeap(v: View, mem: Memory, mem': Memory)
    requires SameButMarks(mem, mem') && Layout(mem, v.oldStart, v.oldEnd, v.youngStart, v.youngEnd) && HasRoots(v, mem)
    ensures Layout(mem', v.oldStart, v.oldEnd, v.youngStart, v.youngEnd) && HasRoots(v, mem')
  {
    hide Layout, RootsIn, SameButMarks;
    SameLayout(mem, mem', v.oldStart, v.oldEnd, v.youngStart, v.youngEnd);
  }

  method UnmarkSpaces(h: Heap)
    requires Layout(h.mem, h.memoryOld, h.memoryOld + h.memoryOldSize, h.memoryYoung, h.memoryYoung + h.memoryYoungSize)
    modifies h`mem
    ensures SameButMarks(old(h.mem), h.mem) && Marked(h.mem, h.markColor) == {}
  {
    hide SameButMarks, Layout, RootsIn, Space, Sound, Marked, Unmarked, SameOutside;
    ghost var mem0, a, b, c, d := h.mem, h.memoryOld, h.memoryOld + h.memoryOldSize, h.memoryYoung, h.memoryYoung + h.memoryYoungSize;
    LayoutSpaces(mem0, a, b, c, d);
    UnmarkAll(h, h.memoryOld, h.memoryOldSize);
    ghost var mem1 := h.mem;
    SameLayout(mem0, mem1, a, b, c, d);
    LayoutSpaces(mem1, a, b, c, d);
    UnmarkAll(h, h.memoryYoung, h.memoryYoungSize);
    SameButMarksTrans(mem0, mem1, h.mem);
    SameLayout(mem1, h.mem, a, b, c, d);
    LayoutSpaces(h.mem, a, b, c, d);
    StillUnmarked(mem1, h.mem, h.markColor, a, b, c, d);
    NothingMarked(h.mem, h.markColor, a, b, c, d);
  }

  lemma NothingPushed(pending: seq<int>)
    requires |pending| == 0
    ensures Log([], {}, {}, pending)
  {
  }

  /** What is marked and what is pending, with the marking of one group of roots and then another. */
  method MarkAllPinned(h: Heap)
    requires h.Tracing()
    modifies h`mem, h`pushed, h`markStack, h`markStackPosition, h.markStack
    ensures MarkedAlso(h, old(PinnedIn(h.mem, h.memoryYoung, h.memoryYoung + h.memoryYoungSize)
                              + PinnedIn(h.mem, h.memoryOld, h.memoryOld + h.memoryOldSize)))
    ensures h.markStack == old(h.markStack) || fresh(h.markStack)
  {
    hide SameButMarks, Layout, RootsIn, Marked, Log, Distinct, PinnedIn, RootsAmong;
    ghost var mem0, v := h.mem, ViewOf(h);
    LayoutSpaces(mem0, v.oldStart, v.oldEnd, v.youngStart, v.youngEnd);
    MarkPinned(h, h.memoryYoung, h.memoryYoungSize);
    ghost var mem1 := h.mem;
    SamePinned(mem0, mem1, v.oldStart, v.oldEnd);
    LayoutSpaces(mem1, v.oldStart, v.oldEnd, v.youngStart, v.youngEnd);
    MarkPinned(h, h.memoryOld, h.memoryOldSize);
    SameButMarksTrans(mem0, mem1, h.mem);
  }

  method MarkSpecialsAndStack(h: Heap, markOld: bool)
    requires h.Tracing()
    modifies h`mem, h`pushed, h`markStack, h`markStackPosition, h.markStack
    ensures MarkedAlso(h, old(SpecialRoots(ViewOf(h), h.mem, markOld) + StackRoots(ViewOf(h), h.mem, markOld)))
    ensures h.markStack == old(h.markStack) || fresh(h.markStack)
  {
    hide SameButMarks, Layout, RootsIn, Marked, Log, Distinct, PinnedIn, RootsAmong, SpecialRoots, StackRoots;
    ghost var mem0, v := h.mem, ViewOf(h);
    MarkSpecials(h, markOld);
    ghost var mem1 := h.mem;
    SameRoots(v, mem0, mem1);
    MarkInterpreterStack(h, markOld);
    SameButMarksTrans(mem0, mem1, h.mem);
  }

  lemma LayoutSpaces(mem: Memory, a: int, b: int, c: int, d: int)
    requires Layout(mem, a, b, c, d)
    ensures Space(mem, a, b) && Space(mem, c, d) && Sound(mem) && (b <= c || d <= a)
    ensures forall k | k in mem :: a <= k < b || c <= k < d
  {
  }

  method MarkRoots(h: Heap)
    requires h.Tracing() && Marked(h.mem, h.markColor) == {} && h.before == {} && h.markStackPosition == 0
    modifies h`mem, h`pushed, h`markStack, h`markStackPosition, h.markStack
    ensures h.Tracing() && SameButMarks(old(h.mem), h.mem) && (h.markStack == old(h.markStack) || fresh(h.markStack))
    ensures Marked(h.mem, h.markColor) == old(FullRoots(ViewOf(h), h.mem)) && h.PendingSet() == Marked(h.mem, h.markColor)
  {
    hide SameButMarks, Layout, RootsIn, Marked, Log, Distinct, PinnedIn, SpecialRoots, StackRoots;
    ghost var mem0, v := h.mem, ViewOf(h);
    assert h.PendingSet() == {};
    MarkAllPinned(h);
    ghost var mem1 := h.mem;
    SameRoots(v, mem0, mem1);
    MarkSpecialsAndStack(h, true);
    SameButMarksTrans(mem0, mem1, h.mem);
  }

  // ---------- the whole collection ----------

  /** A live object as a collection leaves it: its references renamed, and the colour of marked objects. */
  function Transferred(fwd: map<int, int>, b: Block, color: bool): Block
    requires b.Used?
  {
    b.(mark := color, mapOop := Forward(fwd, b.mapOop), oops := MoveOops(fwd, b.oops))
  }

  /** mem' is mem, restricted to the live objects and renamed by fwd: an isomorphic graph with the same contents. */
  ghost predicate Isomorphic(mem: Memory, roots: set<int>, mem': Memory, fwd: map<int, int>, color: bool) {
    && (forall x | Live(mem, roots, x) :: IsUsed(mem, x) && Forward(fwd, x) in mem'
                                          && mem'[Forward(fwd, x)] == Transferred(fwd, mem[x], color))
    && (forall x, y | Live(mem, roots, x) && Live(mem, roots, y) && Forward(fwd, x) == Forward(fwd, y) :: x == y)
    && (forall k | IsUsed(mem', k) :: IsImage(mem, roots, fwd, k))
  }

  /** Field by field: a live object's copy has its kind, hash, pins and raw words, and its references, renamed. */
  lemma IsomorphicExactly(mem: Memory, roots: set<int>, mem': Memory, fwd: map<int, int>, color: bool, x: int)
    requires Isomorphic(mem, roots, mem', fwd, color) && Live(mem, roots, x)
    ensures x in mem && mem[x].Used? && Forward(fwd, x) in mem' && mem'[Forward(fwd, x)].Used?
    ensures var b, c := mem[x], mem'[Forward(fwd, x)];
      && c.kind == b.kind && c.hash == b.hash && c.pins == b.pins && c.raw == b.raw && c.mark == color && c.mapOop == Forward(fwd, b.mapOop)
      && |c.oops| == |b.oops| && forall k | 0 <= k < |b.oops| :: c.oops[k] == if b.oops[k].Ref? then Ref(Forward(fwd, b.oops[k].addr)) else b.oops[k]
  {
    hide Live;
  }

  ghost predicate IsImage(mem: Memory, roots: set<int>, fwd: map<int, int>, k: int) {
    exists x :: Live(mem, roots, x) && Forward(fwd, x) == k
  }

  /** What moves is exactly what is live, young and not pinned; it moves into old space. */
  ghost predicate MovesYoung(v: View, mem: Memory, roots: set<int>, fwd: map<int, int>, oldEnd: int) {
    && (forall x :: x in fwd <==> Live(mem, roots, x) && v.youngStart <= x < v.youngEnd && !IsPinned(mem, x))
    && (forall x | x in fwd :: v.oldStart <= fwd[x] < oldEnd)
  }

  /** After tracing, marked means live, and nothing but marks has changed. */
  ghost predicate TracedFor(mem0: Memory, roots: set<int>, mem: Memory, color: bool) {
    SameButMarks(mem0, mem) && forall x :: IsMarked(mem, color, x) <==> Live(mem0, roots, x)
  }

  lemma LiveUsed(mem: Memory, roots: set<int>, x: int)
    requires Sound(mem) && (forall r | r in roots :: IsUsed(mem, r)) && Live(mem, roots, x)
    ensures IsUsed(mem, x)
  {
    var s := set k | k in mem && IsUsed(mem, k);
    forall r | r in roots ensures r in s {
      assert IsUsed(mem, r);
    }
    forall a, y | a in s && a in mem && Points(mem[a], y) ensures y in s {
      assert IsUsed(mem, y);
    }
    ClosedHoldsReachable(mem, mem.Keys, roots, s, x);
  }

  lemma RootsUsed(v: View, mem: Memory)
    requires HasRoots(v, mem) && Sound(mem)
    ensures forall r | r in FullRoots(v, mem) :: IsUsed(mem, r)
  {
    ElementsUsed(mem, v.specialObjects, |mem[v.specialObjects].oops|);
    ElementsUsed(mem, StackOf(mem, v.interpreter), v.stackPointer);
    var xs := mem[v.specialObjects].oops;
    assert xs[..|xs|] == xs;
  }

  lemma ElementsUsed(mem: Memory, a: int, n: nat)
    requires Sound(mem) && IsUsed(mem, a) && n <= |mem[a].oops|
    ensures forall r | r in RefsIn(mem[a].oops[..n]) :: IsUsed(mem, r)
  {
    forall r | r in RefsIn(mem[a].oops[..n]) ensures IsUsed(mem, r) {
      var i :| 0 <= i < n && mem[a].oops[i] == Ref(r);
      assert Points(mem[a], r);
    }
  }

  /** What is live is closed under references. */
  lemma LiveClosed(mem: Memory, roots: set<int>, k: int, x: int)
    requires Live(mem, roots, k) && k in mem && Points(mem[k], x)
    ensures Live(mem, roots, x)
  {
    ReachableStep(mem, mem.Keys, roots, k, x);
  }

  /** With old space swept, tenuring may begin. */
  lemma SweptOld(v: View, mem0: Memory, roots: set<int>, mem1: Memory, mem2: Memory, s: Spaces)
    requires s == Spaces(v.oldStart, v.oldEnd, v.youngStart, v.youngEnd, s.color)
    requires Layout(mem1, v.oldStart, v.oldEnd, v.youngStart, v.youngEnd) && TracedFor(mem0, roots, mem1, s.color)
    requires Swept(mem1, mem2, s.color, v.oldStart, v.oldEnd)
    requires PinnedIn(mem0, v.youngStart, v.youngEnd) <= roots
    ensures ReadyToTenure(s, mem2)
    ensures forall x :: IsMarked(mem2, s.color, x) <==> Live(mem0, roots, x)
    ensures forall x | Live(mem0, roots, x) :: IsUsed(mem0, x) && mem2[x] == mem0[x].(mark := s.color)
    ensures forall x | IsUsed(mem2, x) && !(v.oldStart <= x < v.oldEnd) :: IsUsed(mem0, x) && SameButMark(mem0[x], mem2[x])
  {
    hide Tiled, Space, Live, Coalesced, Points;
    SweptMarked(mem1, mem2, s.color, v.oldStart, v.oldEnd);
    SpaceSame(mem1, mem2, v.youngStart, v.youngEnd);
    forall k, x | IsMarked(mem2, s.color, k) && Points(mem2[k], x) ensures IsMarked(mem2, s.color, x) {
      assert SameButMark(mem0[k], mem1[k]);
      PointsSame(mem0[k], mem1[k], x);
      LiveClosed(mem0, roots, k, x);
    }
    forall k | IsUsed(mem2, k) && (s.oldStart <= k < s.oldEnd || IsPinned(mem2, k)) ensures IsMarked(mem2, s.color, k) {
      if !(s.oldStart <= k < s.oldEnd) {
        assert SameButMark(mem0[k], mem1[k]) && mem2[k] == mem1[k] && k in PinnedIn(mem0, v.youngStart, v.youngEnd);
        RootReachable(mem0, mem0.Keys, roots, k);
        assert Live(mem0, roots, k) by { IsLive(mem0, roots, k); }
      }
    }
  }

  lemma IsLive(mem: Memory, roots: set<int>, x: int)
    ensures Live(mem, roots, x) <==> Reachable(mem, mem.Keys, roots, x)
  {
  }

  lemma SweptMarked(mem: Memory, mem': Memory, color: bool, a: int, b: int)
    requires Swept(mem, mem', color, a, b)
    ensures forall x :: IsMarked(mem', color, x) <==> IsMarked(mem, color, x)
    ensures forall x | IsMarked(mem, color, x) :: mem'[x] == mem[x]
    ensures forall x | a <= x < b && IsUsed(mem', x) :: IsMarked(mem', color, x)
  {
    forall x ensures (IsMarked(mem', color, x) <==> IsMarked(mem, color, x)) && (IsMarked(mem, color, x) ==> mem'[x] == mem[x]) {
      if a <= x < b {
        assert IsUsed(mem', x) <==> IsMarked(mem, color, x);
      }
    }
  }

  lemma MovedMark(fwd: map<int, int>, b: Block, color: bool)
    requires b.Used?
    ensures Moved(fwd, b.(mark := color)) == Transferred(fwd, b, color)
  {
  }

  /** A settled heap is an isomorphic copy of what was live. */
  lemma SettledIsomorphic(v: View, mem0: Memory, roots: set<int>, mem2: Memory, s: Spaces, mem': Memory, oldEnd: int, fwd: map<int, int>)
    requires s == Spaces(v.oldStart, v.oldEnd, v.youngStart, v.youngEnd, s.color) && ReadyToTenure(s, mem2) && Settled(s, mem2, mem', oldEnd, fwd)
    requires v.oldEnd <= v.youngStart || v.youngEnd <= v.oldStart
    requires forall x :: IsMarked(mem2, s.color, x) <==> Live(mem0, roots, x)
    requires forall x | Live(mem0, roots, x) :: IsUsed(mem0, x) && mem2[x] == mem0[x].(mark := s.color)
    ensures Isomorphic(mem0, roots, mem', fwd, s.color) && MovesYoung(v, mem0, roots, fwd, oldEnd)
  {
    hide Tiled, Space, Live, Coalesced, Moved, Transferred;
    forall x | Live(mem0, roots, x)
      ensures Forward(fwd, x) in mem' && mem'[Forward(fwd, x)] == Transferred(fwd, mem0[x], s.color)
    {
      assert IsMarked(mem2, s.color, x);
      MovedMark(fwd, mem0[x], s.color);
    }
    forall x, y | Live(mem0, roots, x) && Live(mem0, roots, y) && Forward(fwd, x) == Forward(fwd, y) ensures x == y {
      assert IsMarked(mem2, s.color, x) && IsMarked(mem2, s.color, y);
    }
    forall k | IsUsed(mem', k) ensures IsImage(mem0, roots, fwd, k) {
      assert CameFrom(mem2, s.color, fwd, k);
      var x :| IsMarked(mem2, s.color, x) && Forward(fwd, x) == k;
      assert Live(mem0, roots, x);
    }
    forall x ensures x in fwd <==> Live(mem0, roots, x) && v.youngStart <= x < v.youngEnd && !IsPinned(mem0, x) {
      assert x in fwd.Keys <==> x in MovesIn(mem2, s.color, v.youngStart, v.youngEnd);
      assert IsMarked(mem2, s.color, x) <==> Live(mem0, roots, x);
    }
  }

  /** The copy is sound: no reference is left dangling. */
  lemma IsomorphicSound(mem: Memory, roots: set<int>, mem': Memory, fwd: map<int, int>, color: bool)
    requires Isomorphic(mem, roots, mem', fwd, color)
    ensures Sound(mem')
  {
    hide Live;
    forall k, y | k in mem' && Points(mem'[k], y) ensures IsUsed(mem', y) {
      assert IsImage(mem, roots, fwd, k);
      var x :| Live(mem, roots, x) && Forward(fwd, x) == k;
      var z := Redirection(mem, roots, mem', fwd, color, x, y);
      assert Live(mem, roots, z);
    }
  }

  /** Every reference of a copy stems from a reference of the original. */
  lemma Redirection(mem: Memory, roots: set<int>, mem': Memory, fwd: map<int, int>, color: bool, x: int, y: int) returns (z: int)
    requires Isomorphic(mem, roots, mem', fwd, color) && Live(mem, roots, x) && Points(mem'[Forward(fwd, x)], y)
    ensures Points(mem[x], z) && Forward(fwd, z) == y && Live(mem, roots, z)
  {
    var b := mem[x];
    var c := Transferred(fwd, b, color);
    assert mem'[Forward(fwd, x)] == c;
    if c.mapOop == y {
      z := b.mapOop;
    } else {
      var i :| 0 <= i < |c.oops| && c.oops[i] == Ref(y);
      assert b.oops[i].Ref?;
      z := b.oops[i].addr;
      assert b.oops[i] in b.oops;
    }
    LiveClosed(mem, roots, x, z);
  }

  /** A tenured object that refers to a pinned young one. */
  ghost predicate IsRemembered(v: View, mem: Memory, fwd: map<int, int>, x: int) {
    IsTarget(fwd, x) && IsUsed(mem, x) && RefersTo(mem[x], v.youngStart, v.youngEnd)
  }

  /**
   * After tenuring next to pinned young objects the remembered set is right if and only if it had noticed who refers to
   * them, whatever else it missed.
   */
  lemma RememberedAfter(v: View, mem: Memory, roots: set<int>, mem': Memory, fwd: map<int, int>, color: bool, oldEnd: int,
                        remembered: set<int>, remembered': set<int>)
    requires OnlyOldIn(v, mem, remembered) && Isomorphic(mem, roots, mem', fwd, color) && MovesYoung(v, mem, roots, fwd, oldEnd)
    requires Sound(mem) && v.oldEnd <= oldEnd && (oldEnd <= v.youngStart || v.youngEnd <= v.oldStart)
    requires forall k | k in mem :: v.oldStart <= k < v.oldEnd || v.youngStart <= k < v.youngEnd
    requires forall x :: x in remembered' <==>
               ((x in remembered && Live(mem, roots, x)) || IsRemembered(v, mem', fwd, x))
    ensures OnlyOldIn(v.(oldEnd := oldEnd), mem', remembered')
    ensures RememberedIn(v.(oldEnd := oldEnd), mem', remembered') <==> PinsNoticed(v, mem, roots, remembered)
  {
    hide Live, PinsNoticed, Isomorphic, MovesYoung, IsRemembered, RememberedIn;
    forall k | k in remembered' ensures v.oldStart <= k < oldEnd && IsUsed(mem', k) {
      RememberedIsOld(v, mem, roots, mem', fwd, color, oldEnd, remembered, k);
    }
    if PinsNoticed(v, mem, roots, remembered) {
      RememberedAgain(v, mem, roots, mem', fwd, color, oldEnd, remembered, remembered');
    }
    if RememberedIn(v.(oldEnd := oldEnd), mem', remembered') {
      PinsWereNoticed(v, mem, roots, mem', fwd, color, oldEnd, remembered, remembered');
    }
  }

  lemma RememberedIsOld(v: View, mem: Memory, roots: set<int>, mem': Memory, fwd: map<int, int>, color: bool, oldEnd: int, remembered: set<int>, k: int)
    requires OnlyOldIn(v, mem, remembered) && Isomorphic(mem, roots, mem', fwd, color) && MovesYoung(v, mem, roots, fwd, oldEnd)
    requires v.oldEnd <= oldEnd && (oldEnd <= v.youngStart || v.youngEnd <= v.oldStart)
    requires (k in remembered && Live(mem, roots, k)) || IsRemembered(v, mem', fwd, k)
    ensures v.oldStart <= k < oldEnd && IsUsed(mem', k)
  {
    hide Live;
    if IsTarget(fwd, k) {
      var x :| x in fwd && fwd[x] == k;
      assert Live(mem, roots, x) && Forward(fwd, x) == k;
    } else {
      assert Live(mem, roots, k) && Forward(fwd, k) == k;
    }
  }

  lemma RememberedAgain(v: View, mem: Memory, roots: set<int>, mem': Memory, fwd: map<int, int>, color: bool, oldEnd: int,
                        remembered: set<int>, remembered': set<int>)
    requires OnlyOldIn(v.(oldEnd := oldEnd), mem', remembered') && Isomorphic(mem, roots, mem', fwd, color) && MovesYoung(v, mem, roots, fwd, oldEnd)
    requires Sound(mem) && v.oldEnd <= oldEnd && (oldEnd <= v.youngStart || v.youngEnd <= v.oldStart)
    requires forall k | k in mem :: v.oldStart <= k < v.oldEnd || v.youngStart <= k < v.youngEnd
    requires forall x | (x in remembered && Live(mem, roots, x)) || IsRemembered(v, mem', fwd, x) :: x in remembered'
    requires PinsNoticed(v, mem, roots, remembered)
    ensures RememberedIn(v.(oldEnd := oldEnd), mem', remembered')
  {
    hide Live;
    forall k | v.oldStart <= k < oldEnd && IsUsed(mem', k) && RefersTo(mem'[k], v.youngStart, v.youngEnd)
      ensures k in remembered'
    {
      assert IsImage(mem, roots, fwd, k);
      var x :| Live(mem, roots, x) && Forward(fwd, x) == k;
      if x in fwd {
        assert IsTarget(fwd, k);
      } else {
        var y :| Points(mem'[k], y) && v.youngStart <= y < v.youngEnd;
        var z := Redirection(mem, roots, mem', fwd, color, x, y);
        assert z !in fwd && z == y;
        LiveIsUsed(mem, roots, mem', fwd, color, y);
        assert IsPinned(mem, y) && k in remembered;
      }
    }
  }

  lemma LiveIsUsed(mem: Memory, roots: set<int>, mem': Memory, fwd: map<int, int>, color: bool, x: int)
    requires Isomorphic(mem, roots, mem', fwd, color) && Live(mem, roots, x)
    ensures IsUsed(mem, x)
  {
    hide Live;
  }

  lemma PinsWereNoticed(v: View, mem: Memory, roots: set<int>, mem': Memory, fwd: map<int, int>, color: bool, oldEnd: int,
                        remembered: set<int>, remembered': set<int>)
    requires RememberedIn(v.(oldEnd := oldEnd), mem', remembered') && Isomorphic(mem, roots, mem', fwd, color) && MovesYoung(v, mem, roots, fwd, oldEnd)
    requires Sound(mem) && v.oldEnd <= oldEnd && (oldEnd <= v.youngStart || v.youngEnd <= v.oldStart)
    requires forall x | x in remembered' :: x in remembered || IsRemembered(v, mem', fwd, x)
    ensures PinsNoticed(v, mem, roots, remembered)
  {
    hide Live;
    forall k, y | v.oldStart <= k < v.oldEnd && Live(mem, roots, k) && k in mem && Points(mem[k], y) && v.youngStart <= y < v.youngEnd && IsPinned(mem, y)
      ensures k in remembered
    {
      assert k !in fwd && y !in fwd;
      MovedPoints(fwd, mem[k], color, y);
      assert mem'[Forward(fwd, k)] == Transferred(fwd, mem[k], color);
      assert Points(mem'[k], y) && RefersTo(mem'[k], v.youngStart, v.youngEnd);
      NoTarget(v, mem, roots, mem', fwd, color, oldEnd, k);
      assert k in remembered';
    }
  }

  /** Nothing moves to where a live object stays. */
  lemma NoTarget(v: View, mem: Memory, roots: set<int>, mem': Memory, fwd: map<int, int>, color: bool, oldEnd: int, k: int)
    requires Isomorphic(mem, roots, mem', fwd, color) && MovesYoung(v, mem, roots, fwd, oldEnd) && Live(mem, roots, k) && k !in fwd
    ensures !IsTarget(fwd, k)
  {
    hide Live;
    forall x | x in fwd ensures fwd[x] != k {
      assert Live(mem, roots, x) && Forward(fwd, x) == fwd[x];
      assert Forward(fwd, k) == k;
    }
  }

  /** What the collector assumes of the objects it starts from: they are live themselves, and do not move. */
  ghost predicate RootsStay(v: View, mem: Memory) {
    && HasRoots(v, mem) && Live(mem, FullRoots(v, mem), v.specialObjects) && Live(mem, FullRoots(v, mem), v.interpreter)
    && v.oldStart <= v.specialObjects < v.oldEnd && v.oldStart <= v.interpreter < v.oldEnd
  }

  lemma RootsAfter(v: View, mem: Memory, roots: set<int>, mem': Memory, fwd: map<int, int>, color: bool, oldEnd: int)
    requires RootsStay(v, mem) && roots == FullRoots(v, mem) && (oldEnd <= v.youngStart || v.youngEnd <= v.oldStart) && v.oldEnd <= oldEnd
    requires Isomorphic(mem, roots, mem', fwd, color) && MovesYoung(v, mem, roots, fwd, oldEnd)
    ensures HasRoots(v, mem')
  {
    StackMoves(v, mem, roots, mem', fwd, color, oldEnd);
  }

  /** The interpreter stays, and its slot refers to where its stack is now. */
  lemma StackMoves(v: View, mem: Memory, roots: set<int>, mem': Memory, fwd: map<int, int>, color: bool, oldEnd: int)
    requires RootsStay(v, mem) && roots == FullRoots(v, mem) && (oldEnd <= v.youngStart || v.youngEnd <= v.oldStart) && v.oldEnd <= oldEnd
    requires Isomorphic(mem, roots, mem', fwd, color) && MovesYoung(v, mem, roots, fwd, oldEnd)
    ensures Forward(fwd, v.specialObjects) == v.specialObjects && Forward(fwd, v.interpreter) == v.interpreter
    ensures IsUsed(mem', v.specialObjects) && mem'[v.specialObjects] == Transferred(fwd, mem[v.specialObjects], color)
    ensures Live(mem, roots, StackOf(mem, v.interpreter)) && HasStack(mem', v.interpreter)
    ensures StackOf(mem', v.interpreter) == Forward(fwd, StackOf(mem, v.interpreter))
    ensures mem'[StackOf(mem', v.interpreter)] == Transferred(fwd, mem[StackOf(mem, v.interpreter)], color)
  {
    hide Live, FullRoots;
    var s := StackOf(mem, v.interpreter);
    assert Ref(s) in mem[v.interpreter].oops;
    LiveClosed(mem, roots, v.interpreter, s);
    assert mem'[v.interpreter] == Transferred(fwd, mem[v.interpreter], color);
    assert MoveOops(fwd, mem[v.interpreter].oops)[STACK_SLOT] == Ref(Forward(fwd, s));
  }

  lemma OldDeadIs(mem0: Memory, roots: set<int>, mem1: Memory, color: bool, a: int, b: int, x: int)
    requires TracedFor(mem0, roots, mem1, color) && a <= x < b && IsUsed(mem0, x)
    ensures x in OldDead(mem1, color, a, b, a, b) <==> !Live(mem0, roots, x)
  {
    hide Live;
    assert SameButMark(mem0[x], mem1[x]);
    assert IsMarked(mem1, color, x) <==> Live(mem0, roots, x);
  }

  /**
   * heap_full_gc. What is live does not depend on the remembered set, which may miss anything; afterwards it is right if
   * and only if it had noticed the live old objects that refer to pinned young ones.
   */
  method FullGc(h: Heap) returns (ghost fwd: map<int, int>)
    requires h.Valid() && OnlyOld(h) && h.markStack.Length > 0
    requires RootsStay(ViewOf(h), h.mem) && h.memoryOldSize + h.memoryYoungSize < h.memoryOldLimit
    modifies h`mem, h`markColor, h`markStack, h`markStackPosition, h`pushed, h`before, h.markStack
    modifies h`memoryOldSize, h`nextOldFree, h`nextFree, h`remembered, h`doFullGCNext
    ensures h.Valid() && OnlyOld(h) && CursorsOk(h) && !h.doFullGCNext && h.nextFree == h.memoryYoung
    ensures RememberedOk(h) <==> old(PinsNoticed(ViewOf(h), h.mem, FullRoots(ViewOf(h), h.mem), h.remembered))
    ensures old(RememberedOk(h)) || old(forall y | h.IsYoung(y) :: !IsPinned(h.mem, y)) ==> RememberedOk(h)
    ensures RootsStay(ViewOf(h), h.mem) && old(h.memoryOldSize) <= h.memoryOldSize <= old(h.memoryOldSize) + h.memoryYoungSize
    ensures Isomorphic(old(h.mem), old(FullRoots(ViewOf(h), h.mem)), h.mem, fwd, h.markColor)
    ensures MovesYoung(old(ViewOf(h)), old(h.mem), old(FullRoots(ViewOf(h), h.mem)), fwd, h.memoryOld + h.memoryOldSize)
    ensures forall k | k in h.mem && h.mem[k].Used? && h.IsYoung(k) :: h.mem[k].pins > 0
    ensures Coalesced(h.mem, h.memoryYoung, h.memoryYoung + h.memoryYoungSize)
    ensures Distinct(h.pushed) && forall x :: x in h.pushed <==> Live(old(h.mem), old(FullRoots(ViewOf(h), h.mem)), x)
    ensures h.markStack.Length > 0 && (h.markStack == old(h.markStack) || fresh(h.markStack))
  {
    hide Live, FullRoots, TracedFor, Isomorphic, MovesYoung, RootsStay, RememberedIn, OnlyOldIn, PinsNoticed, Coalesced, Distinct, Marked,
      SameButMarks, Layout, RootsIn, IsMarked, Cursor;
    ghost var mem0, v, roots := h.mem, ViewOf(h), FullRoots(ViewOf(h), h.mem);
    NoticedWhen(h);
    MarkAll(h);
    TracedIs(mem0, roots, h.mem, h.markColor, h.pushed);
    fwd := SweepAndTenure(h, mem0, v, roots);
    h.doFullGCNext := false;
    PinsLeft(h.mem, h.memoryYoung, h.memoryYoung + h.memoryYoungSize);
    RootsStayAfter(v, mem0, roots, h.mem, fwd, h.markColor, h.memoryOld + h.memoryOldSize);
  }

  lemma PinsLeft(mem: Memory, a: int, b: int)
    ensures (forall k | IsUsed(mem, k) && a <= k < b :: IsPinned(mem, k)) ==> forall k | k in mem && mem[k].Used? && a <= k < b :: mem[k].pins > 0
  {
    forall k | k in mem && mem[k].Used? && a <= k < b ensures IsPinned(mem, k) ==> mem[k].pins > 0 {
      assert IsUsed(mem, k);
    }
  }

  lemma NoticedWhen(h: Heap)
    ensures RememberedOk(h) || (forall y | h.IsYoung(y) :: !IsPinned(h.mem, y)) ==>
              forall roots :: PinsNoticed(ViewOf(h), h.mem, roots, h.remembered)
  {
    hide PinsNoticed, RememberedIn;
    if RememberedOk(h) || forall y | h.IsYoung(y) :: !IsPinned(h.mem, y) {
      forall roots ensures PinsNoticed(ViewOf(h), h.mem, roots, h.remembered) {
        NoticedIf(ViewOf(h), h.mem, roots, h.remembered);
      }
    }
  }

  /** The second half of heap_full_gc: old space is swept, and young objects move there. */
  method SweepAndTenure(h: Heap, ghost mem0: Memory, ghost v: View, ghost roots: set<int>) returns (ghost fwd: map<int, int>)
    requires h.Valid() && v == ViewOf(h) && h.memoryOldSize + h.memoryYoungSize < h.memoryOldLimit
    requires Layout(mem0, v.oldStart, v.oldEnd, v.youngStart, v.youngEnd) && RootsStay(v, mem0) && roots == FullRoots(v, mem0)
    requires OnlyOldIn(v, mem0, h.remembered) && TracedFor(mem0, roots, h.mem, h.markColor)
    modifies h`mem, h`memoryOldSize, h`nextOldFree, h`nextFree, h`remembered, h`doFullGCNext
    ensures h.Valid() && OnlyOld(h) && (RememberedOk(h) <==> PinsNoticed(v, mem0, roots, old(h.remembered))) && CursorsOk(h)
    ensures h.nextFree == h.memoryYoung
    ensures old(h.memoryOldSize) <= h.memoryOldSize <= old(h.memoryOldSize) + h.memoryYoungSize
    ensures Isomorphic(mem0, roots, h.mem, fwd, h.markColor) && MovesYoung(v, mem0, roots, fwd, h.memoryOld + h.memoryOldSize)
    ensures forall k | IsUsed(h.mem, k) && h.IsYoung(k) :: IsPinned(h.mem, k)
    ensures Coalesced(h.mem, h.memoryYoung, h.memoryYoung + h.memoryYoungSize)
  {
    hide Live, Tiled, Space, FullRoots, Swept, TracedFor, ReadyToTenure, Settled, Isomorphic, MovesYoung, Sound, RootsStay, RememberedIn, OnlyOldIn,
         PinsNoticed, Coalesced, SameButMarks, OldDead, Layout, RefersTo, HasRoots;
    ghost var mem1, s := h.mem, Bounds(h);
    LayoutSpaces(mem1, v.oldStart, v.oldEnd, v.youngStart, v.youngEnd);
    FreeAndCoalesceUnmarked(h, h.memoryOld, h.memoryOldSize);
    ghost var mem2 := h.mem;
    PinnedAreRoots(v, mem0);
    SweptOld(v, mem0, roots, mem1, mem2, s);
    fwd := Tenure(h);
    ghost var oldEnd := h.memoryOld + h.memoryOldSize;
    SettledIsomorphic(v, mem0, roots, mem2, s, h.mem, oldEnd, fwd);
    AfterFull(v, mem0, roots, mem1, mem2, s, h.mem, oldEnd, fwd, old(h.remembered), h.remembered);
    RootsIs(v, h.mem);
    LayoutSpaces(h.mem, v.oldStart, oldEnd, v.youngStart, v.youngEnd);
    FirstYoung(v, h.mem);
  }

  lemma RootsIs(v: View, mem: Memory)
    ensures HasRoots(v, mem) <==> RootsIn(mem, v.specialObjects, v.interpreter, v.stackPointer)
  {
  }

  lemma FirstYoung(v: View, mem: Memory)
    ensures Space(mem, v.youngStart, v.youngEnd) ==> Cursor(mem, v.youngStart, v.youngEnd, v.youngStart)
  {
  }

  lemma TracedIs(mem0: Memory, roots: set<int>, mem: Memory, color: bool, pushed: seq<int>)
    requires SameButMarks(mem0, mem) && forall x :: IsMarked(mem, color, x) <==> Live(mem0, roots, x)
    requires Elements(pushed) == Marked(mem, color)
    ensures TracedFor(mem0, roots, mem, color)
    ensures forall x :: x in pushed <==> Live(mem0, roots, x)
  {
    hide Live;
    forall x ensures x in pushed <==> Live(mem0, roots, x) {
      assert x in pushed <==> x in Elements(pushed);
      assert IsMarked(mem, color, x) <==> x in Marked(mem, color);
    }
  }

  lemma PinnedAreRoots(v: View, mem: Memory)
    requires RootsStay(v, mem)
    ensures PinnedIn(mem, v.youngStart, v.youngEnd) <= FullRoots(v, mem)
  {
  }

  /** Everything a full collection promises of the heap it leaves. */
  lemma AfterFull(v: View, mem0: Memory, roots: set<int>, mem1: Memory, mem2: Memory, s: Spaces, mem': Memory, oldEnd: int, fwd: map<int, int>,
                  remembered: set<int>, remembered': set<int>)
    requires Layout(mem0, v.oldStart, v.oldEnd, v.youngStart, v.youngEnd) && RootsStay(v, mem0) && roots == FullRoots(v, mem0)
    requires OnlyOldIn(v, mem0, remembered)
    requires s == Spaces(v.oldStart, v.oldEnd, v.youngStart, v.youngEnd, s.color) && TracedFor(mem0, roots, mem1, s.color)
    requires Settled(s, mem2, mem', oldEnd, fwd) && (oldEnd <= v.youngStart || v.youngEnd <= v.oldStart)
    requires Isomorphic(mem0, roots, mem', fwd, s.color) && MovesYoung(v, mem0, roots, fwd, oldEnd)
    requires forall x :: x in remembered' <==>
               (x in remembered - OldDead(mem1, s.color, v.oldStart, v.oldEnd, v.oldStart, v.oldEnd) || IsRemembered(v, mem', fwd, x))
    ensures Layout(mem', v.oldStart, oldEnd, v.youngStart, v.youngEnd) && HasRoots(v, mem')
    ensures OnlyOldIn(v.(oldEnd := oldEnd), mem', remembered')
    ensures RememberedIn(v.(oldEnd := oldEnd), mem', remembered') <==> PinsNoticed(v, mem0, roots, remembered)
    ensures Coalesced(mem', v.youngStart, v.youngEnd)
    ensures forall k | IsUsed(mem', k) && v.youngStart <= k < v.youngEnd :: IsPinned(mem', k)
  {
    hide Live, Tiled, Space, FullRoots, TracedFor, OldDead, RefersTo, Sound, Transferred, RootsStay, RememberedIn, PinsNoticed;
    IsomorphicSound(mem0, roots, mem', fwd, s.color);
    RootsAfter(v, mem0, roots, mem', fwd, s.color, oldEnd);
    forall x | x in remembered ensures x in OldDead(mem1, s.color, v.oldStart, v.oldEnd, v.oldStart, v.oldEnd) <==> !Live(mem0, roots, x) {
      OldDeadIs(mem0, roots, mem1, s.color, v.oldStart, v.oldEnd, x);
    }
    RememberedAfter(v, mem0, roots, mem', fwd, s.color, oldEnd, remembered, remembered');
    forall k | IsUsed(mem', k) && v.youngStart <= k < v.youngEnd ensures IsPinned(mem', k) {
      assert IsImage(mem0, roots, fwd, k);
      var x :| Live(mem0, roots, x) && Forward(fwd, x) == k;
      StaysPinned(v, mem0, roots, mem', fwd, s.color, oldEnd, x);
    }
  }

  lemma StaysPinned(v: View, mem: Memory, roots: set<int>, mem': Memory, fwd: map<int, int>, color: bool, oldEnd: int, x: int)
    requires Isomorphic(mem, roots, mem', fwd, color) && MovesYoung(v, mem, roots, fwd, oldEnd) && Live(mem, roots, x)
    requires oldEnd <= v.youngStart || v.youngEnd <= v.oldStart
    ensures v.youngStart <= Forward(fwd, x) < v.youngEnd ==> IsPinned(mem', Forward(fwd, x))
  {
    hide Live;
  }

  // ---------- what was live still is ----------

  lemma MovedPoints(fwd: map<int, int>, b: Block, color: bool, y: int)
    requires b.Used? && Points(b, y)
    ensures Points(Transferred(fwd, b, color), Forward(fwd, y))
  {
    if b.mapOop != y {
      var i :| 0 <= i < |b.oops| && b.oops[i] == Ref(y);
      assert MoveOops(fwd, b.oops)[i] == Ref(Forward(fwd, y));
    }
  }

  lemma MovedRefs(fwd: map<int, int>, xs: seq<Oop>, n: nat, r: int)
    requires n <= |xs| && r in RefsIn(xs[..n])
    ensures Forward(fwd, r) in RefsIn(MoveOops(fwd, xs)[..n])
  {
    var i :| 0 <= i < n && xs[i] == Ref(r);
    assert MoveOops(fwd, xs)[..n][i] == Ref(Forward(fwd, r));
  }

  /** A root of the heap before is a root of the heap after. */
  lemma RootMoves(v: View, mem: Memory, roots: set<int>, mem': Memory, fwd: map<int, int>, color: bool, oldEnd: int, r: int)
    requires RootsStay(v, mem) && roots == FullRoots(v, mem) && (oldEnd <= v.youngStart || v.youngEnd <= v.oldStart) && v.oldEnd <= oldEnd
    requires Isomorphic(mem, roots, mem', fwd, color) && MovesYoung(v, mem, roots, fwd, oldEnd) && HasRoots(v, mem')
    requires r in roots
    ensures Forward(fwd, r) in FullRoots(v.(oldEnd := oldEnd), mem')
  {
    hide Live;
    assert Live(mem, roots, r) by { RootReachable(mem, mem.Keys, roots, r); IsLive(mem, roots, r); }
    StackMoves(v, mem, roots, mem', fwd, color, oldEnd);
    if r in PinnedIn(mem, v.youngStart, v.youngEnd) + PinnedIn(mem, v.oldStart, v.oldEnd) {
      assert Forward(fwd, r) == r;
    } else if r in SpecialRoots(v, mem, true) {
      var xs := mem[v.specialObjects].oops;
      assert xs[..|xs|] == xs && MoveOops(fwd, xs)[..|xs|] == MoveOops(fwd, xs);
      MovedRefs(fwd, xs, |xs|, r);
    } else {
      MovedRefs(fwd, mem[StackOf(mem, v.interpreter)].oops, v.stackPointer, r);
    }
  }

  /** What was live is live, where it is now. */
  lemma StillLive(v: View, mem: Memory, roots: set<int>, mem': Memory, fwd: map<int, int>, color: bool, oldEnd: int, x: int)
    requires RootsStay(v, mem) && roots == FullRoots(v, mem) && (oldEnd <= v.youngStart || v.youngEnd <= v.oldStart) && v.oldEnd <= oldEnd
    requires Isomorphic(mem, roots, mem', fwd, color) && MovesYoung(v, mem, roots, fwd, oldEnd) && HasRoots(v, mem')
    requires Live(mem, roots, x)
    ensures Live(mem', FullRoots(v.(oldEnd := oldEnd), mem'), Forward(fwd, x))
  {
    hide FullRoots, Transferred, RootsStay, MovesYoung, Reachable;
    var roots' := FullRoots(v.(oldEnd := oldEnd), mem');
    var s := set k | k in mem && Live(mem, roots, k) && Live(mem', roots', Forward(fwd, k));
    forall r | r in roots ensures r in s {
      RootReachable(mem, mem.Keys, roots, r);
      assert Live(mem, roots, r);
      RootMoves(v, mem, roots, mem', fwd, color, oldEnd, r);
      RootReachable(mem', mem'.Keys, roots', Forward(fwd, r));
    }
    forall a, y | a in s && a in mem && Points(mem[a], y) ensures y in s {
      LiveClosed(mem, roots, a, y);
      MovedPoints(fwd, mem[a], color, y);
      LiveClosed(mem', roots', Forward(fwd, a), Forward(fwd, y));
    }
    ClosedHoldsReachable(mem, mem.Keys, roots, s, x);
  }

  lemma RootsStayAfter(v: View, mem: Memory, roots: set<int>, mem': Memory, fwd: map<int, int>, color: bool, oldEnd: int)
    requires RootsStay(v, mem) && roots == FullRoots(v, mem) && (oldEnd <= v.youngStart || v.youngEnd <= v.oldStart) && v.oldEnd <= oldEnd
    requires Isomorphic(mem, roots, mem', fwd, color) && MovesYoung(v, mem, roots, fwd, oldEnd)
    ensures RootsStay(v.(oldEnd := oldEnd), mem')
  {
    hide Live, FullRoots, Transferred;
    RootsAfter(v, mem, roots, mem', fwd, color, oldEnd);
    StillLive(v, mem, roots, mem', fwd, color, oldEnd, v.specialObjects);
    StillLive(v, mem, roots, mem', fwd, color, oldEnd, v.interpreter);
    StackMoves(v, mem, roots, mem', fwd, color, oldEnd);
  }
}

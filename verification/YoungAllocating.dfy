/** gc_allocate: a free young block is split; when there is none, the heap is collected, once or twice. */
module YoungAllocating {
  import opened HeapModel
  import opened Marking
  import opened Roots
  import opened Allocating
  import opened Forwarding
  import opened Tenuring
  import opened Collecting
  import opened YoungCollecting
  import opened Survival

  /** All that a full collection and an allocation without one need of the heap. */
  ghost predicate Usable(h: Heap)
    reads h, h.markStack
  {
    h.Valid() && OnlyOld(h) && CursorsOk(h) && h.markStack.Length > 0 && RootsStay(ViewOf(h), h.mem)
  }

  /** All that any collection needs of the heap, and leaves behind for the next. */
  ghost predicate Ready(h: Heap)
    reads h, h.markStack
  {
    Usable(h) && RememberedOk(h)
  }

  /** From the cursor on, or from the start of young space if it is outside, no block can be split for so many words. */
  ghost predicate NoYoungRoom(mem: Memory, cursor: int, a: int, end: int, words: int) {
    words >= 0 && NoneFits(mem, if a <= cursor < end then cursor else a, end, words + HEADER)
  }

  /** One try: from the cursor on, or from the start of young space if it is outside, the first block that can be split. */
  method TryAllocate(h: Heap, words: nat) returns (found: bool, p: int, hash: nat)
    requires HEADER <= words && Space(h.mem, h.memoryYoung, h.memoryYoung + h.memoryYoungSize)
    requires Cursor(h.mem, h.memoryYoung, h.memoryYoung + h.memoryYoungSize, h.nextFree)
    modifies h`mem, h`nextFree
    ensures found ==> Fits(old(h.mem), p, words + HEADER) && h.nextFree == p
    ensures found ==> Placed(old(h.mem), h.mem, h.memoryYoung, h.memoryYoung + h.memoryYoungSize, h.memoryYoung + h.memoryYoungSize,
                             p, NewBlock(hash, words))
    ensures !found ==> h.mem == old(h.mem) && !h.IsYoung(h.nextFree)
    ensures NoneFits(old(h.mem), if old(h.IsYoung(h.nextFree)) then old(h.nextFree) else h.memoryYoung,
                     if found then p else h.memoryYoung + h.memoryYoungSize, words + HEADER)
  {
    hide Space, Tiled, Placed;
    ghost var end := h.memoryYoung + h.memoryYoungSize;
    StartsTiled(h.mem, h.memoryYoung, end);
    hash := *;
    if !h.IsYoung(h.nextFree) {
      h.nextFree := h.memoryYoung;
    }
    found, p := FindFirstFree(h, h.nextFree, h.memoryYoung, h.memoryYoungSize, words + HEADER);
    if found {
      h.nextFree := p;
      SplitPlaces(h.mem, h.memoryYoung, end, p, NewBlock(hash, words));
      h.mem := Split(h.mem, p, NewBlock(hash, words));
    } else {
      // no block at all: as good as any other address outside the space
      h.nextFree := h.memoryYoung + h.memoryYoungSize;
    }
  }

  /** The collection that a failing try makes: a full one when one is due or a young one did not help. */
  method Collect(h: Heap, full: bool) returns (ghost fwd: map<int, int>)
    requires Usable(h) && (RememberedOk(h) || full) && h.memoryOldSize + h.memoryYoungSize < h.memoryOldLimit
    modifies h`mem, h`markColor, h`markStack, h`markStackPosition, h`pushed, h`before, h.markStack
    modifies h`memoryOldSize, h`nextOldFree, h`nextFree, h`remembered, h`doFullGCNext
    ensures Usable(h) && (h.markStack == old(h.markStack) || fresh(h.markStack))
    ensures old(RememberedOk(h)) || (full && old(PinsNoticed(ViewOf(h), h.mem, FullRoots(ViewOf(h), h.mem), h.remembered))) <==> RememberedOk(h)
    ensures old(h.memoryOldSize) <= h.memoryOldSize <= old(h.memoryOldSize) + h.memoryYoungSize
    ensures Survived(old(ViewOf(h)), old(h.mem), h.mem, fwd)
  {
    hide Layout, RootsIn, RememberedIn, OnlyOldIn, PinsNoticed, RootsStay, Isomorphic, MovesYoung, YoungKept, Coalesced, Distinct, FullRoots, Survived,
      IsPinned;
    ghost var v, mem := ViewOf(h), h.mem;
    UsableBounds(h);
    if full {
      fwd := FullGc(h);
      AfterFullGc(v, mem, h.mem, fwd, h.markColor, h.memoryOld + h.memoryOldSize);
    } else {
      fwd := map[];
      RootsAreOld(v, mem);
      SizeOk(h);
      YoungGc(h);
      RememberedOnlyOld(ViewOf(h), h.mem, h.remembered);
      AfterYoungGc(v, mem, h.mem);
    }
  }

  lemma UsableBounds(h: Heap)
    requires Usable(h)
    ensures var v := ViewOf(h); InBounds(v, h.mem) && HasRoots(v, h.mem) && Layout(h.mem, v.oldStart, v.oldEnd, v.youngStart, v.youngEnd)
    ensures var v := ViewOf(h); v.oldEnd <= v.youngStart || v.youngEnd <= v.oldStart
  {
  }

  lemma SizeOk(h: Heap)
    requires h.Valid()
    ensures h.memoryYoungSize >= 0
  {
  }

  lemma RootsAreOld(v: View, mem: Memory)
    requires RootsStay(v, mem)
    ensures v.oldStart <= v.specialObjects < v.oldEnd && v.oldStart <= v.interpreter < v.oldEnd
  {
  }

  /** Where a new block was put, and after how many collections; in old space only when two did not help. */
  datatype Allocation = Allocation(address: int, hash: nat, collections: nat, inOld: bool, oldEnd: int)

  method TryReady(h: Heap, words: nat, ghost tries: nat) returns (ok: bool, p: int, ghost a: Allocation)
    requires HEADER <= words && Usable(h)
    modifies h`mem, h`nextFree
    ensures ok ==> a == Allocation(p, a.hash, tries, false, h.memoryOld + h.memoryOldSize) && Fits(old(h.mem), p, words + HEADER) && CursorsOk(h)
    ensures ok ==> Placed(old(h.mem), h.mem, h.memoryYoung, h.memoryYoung + h.memoryYoungSize, h.memoryYoung + h.memoryYoungSize,
                          p, NewBlock(a.hash, words))
    ensures !ok ==> Usable(h) && h.mem == old(h.mem)
    ensures !ok ==> NoYoungRoom(old(h.mem), old(h.nextFree), h.memoryYoung, h.memoryYoung + h.memoryYoungSize, words) && !h.IsYoung(h.nextFree)
    ensures !ok && old(h.nextFree == h.memoryYoung) ==> NoneFits(h.mem, h.memoryYoung, h.memoryYoung + h.memoryYoungSize, words + HEADER)
  {
    hide Layout, RootsIn, RememberedIn, OnlyOldIn, RootsStay, Space, Tiled, Placed, FullRoots, Fits, NoneFits;
    ghost var kept, v := h.mem, ViewOf(h);
    LayoutSpaces(kept, v.oldStart, v.oldEnd, v.youngStart, v.youngEnd);
    var hash;
    ok, p, hash := TryAllocate(h, words);
    a := Allocation(p, hash, tries, false, v.oldEnd);
    if ok {
      PlacedKeys(kept, h.mem, v.youngStart, v.youngEnd, v.youngEnd, p, NewBlock(hash, words));
    } else {
      NoneFitsEmpty(kept, h.memoryYoung, v.youngEnd, words + HEADER);
    }
  }

  lemma NoneFitsEmpty(mem: Memory, a: int, b: int, words: nat)
    ensures b <= a ==> NoneFits(mem, a, b, words)
  {
  }

  method AllocateFallback(h: Heap, words: nat, ghost kept: Memory) returns (p: int, ghost a: Allocation)
    requires HEADER <= words && Usable(h) && h.memoryOldSize + words < h.memoryOldLimit && kept == h.mem
    modifies h`mem, h`memoryOldSize, h`nextOldFree
    ensures a == Allocation(p, a.hash, 2, true, h.memoryOld + old(h.memoryOldSize)) && CursorsOk(h)
    ensures old(h.memoryOldSize) <= h.memoryOldSize <= old(h.memoryOldSize) + words
    ensures Placed(kept, h.mem, h.memoryOld, a.oldEnd, h.memoryOld + h.memoryOldSize, p, NewBlock(a.hash, words))
  {
    hide Layout, RootsIn, RememberedIn, OnlyOldIn, RootsStay, Space, Tiled, Placed, FullRoots, Fits, NoneFits;
    ghost var v := ViewOf(h);
    LayoutSpaces(kept, v.oldStart, v.oldEnd, v.youngStart, v.youngEnd);
    OldRoom(v, kept, h.memoryOld + h.memoryOldLimit);
    p := AllocateOld(h, words);
    ghost var hash :| Placed(kept, h.mem, v.oldStart, v.oldEnd, h.memoryOld + h.memoryOldSize, p, NewBlock(hash, words));
    NewBlockWords(hash, words);
    a := Allocation(p, hash, 2, true, v.oldEnd);
    PlacedKeys(kept, h.mem, v.oldStart, v.oldEnd, h.memoryOld + h.memoryOldSize, p, NewBlock(hash, words));
  }

  method RestartCursor(h: Heap)
    requires Usable(h)
    modifies h`nextFree
    ensures Usable(h) && h.nextFree == h.memoryYoung
  {
    hide Layout, RootsIn, RememberedIn, OnlyOldIn, RootsStay, Space, Tiled;
    LayoutSpaces(h.mem, h.memoryOld, h.memoryOld + h.memoryOldSize, h.memoryYoung, h.memoryYoung + h.memoryYoungSize);
    FirstYoung(ViewOf(h), h.mem);
    h.nextFree := h.memoryYoung;
  }

  /** All of what a collection needs that does not depend on cursors and stacks. */
  ghost predicate InOrder(v: View, mem: Memory, remembered: set<int>) {
    Layout(mem, v.oldStart, v.oldEnd, v.youngStart, v.youngEnd) && RootsStay(v, mem) && OnlyOldIn(v, mem, remembered)
  }

  /**
   * A new block of so many words at a.address, in the heap `kept` that the last try found: what was live has survived the
   * collections there were, if any, and that heap is in order. Only if no young block could be split even then, the new
   * one is in old space.
   */
  ghost predicate Allocated(v0: View, mem0: Memory, v: View, mem: Memory, remembered: set<int>, a: Allocation, kept: Memory, fwd: map<int, int>,
                            words: nat)
    requires HasRoots(v0, mem0) && HEADER <= words
  {
    && Survived(v0, mem0, kept, fwd) && InOrder(v.(oldEnd := a.oldEnd), kept, remembered) && AnchorOf(v) == AnchorOf(v0)
    && a.collections <= 2 && (a.collections == 0 ==> kept == mem0 && !a.inOld)
    && if a.inOld then
         a.collections == 2 && Placed(kept, mem, v.oldStart, a.oldEnd, v.oldEnd, a.address, NewBlock(a.hash, words))
         && NoneFits(kept, v.youngStart, v.youngEnd, words + HEADER)
       else
         Fits(kept, a.address, words + HEADER) && a.oldEnd == v.oldEnd
         && Placed(kept, mem, v.youngStart, v.youngEnd, v.youngEnd, a.address, NewBlock(a.hash, words))
  }

  /** A collection, and the cursor back at the start of young space. */
  method CollectAgain(h: Heap, full: bool, ghost v0: View, ghost mem0: Memory, ghost fwd: map<int, int>) returns (ghost fwd': map<int, int>)
    requires Ready(h) && h.memoryOldSize + h.memoryYoungSize < h.memoryOldLimit
    requires RootsStay(v0, mem0) && InBounds(v0, mem0) && AnchorOf(ViewOf(h)) == AnchorOf(v0) && Survived(v0, mem0, h.mem, fwd)
    modifies h`mem, h`markColor, h`markStack, h`markStackPosition, h`pushed, h`before, h.markStack
    modifies h`memoryOldSize, h`nextOldFree, h`nextFree, h`remembered, h`doFullGCNext
    ensures Ready(h) && h.nextFree == h.memoryYoung && (h.markStack == old(h.markStack) || fresh(h.markStack))
    ensures old(h.memoryOldSize) <= h.memoryOldSize <= old(h.memoryOldSize) + h.memoryYoungSize
    ensures Survived(v0, mem0, h.mem, fwd') && AnchorOf(ViewOf(h)) == AnchorOf(v0)
  {
    hide Layout, RootsIn, RememberedIn, OnlyOldIn, PinsNoticed, FullRoots, RootsStay, Survived, InBounds;
    ghost var v1, mem1 := ViewOf(h), h.mem;
    UsableBounds(h);
    ghost var more := Collect(h, full);
    SurvivedThen(v0, mem0, v1, mem1, fwd, h.mem, more);
    fwd' := Then(fwd, more);
    RestartCursor(h);
  }

  /** gc_allocate. */
  method Allocate(h: Heap, words: nat) returns (p: int, ghost a: Allocation, ghost kept: Memory, ghost fwd: map<int, int>)
    requires HEADER <= words && Ready(h) && h.memoryOldSize + 2 * h.memoryYoungSize + words < h.memoryOldLimit
    modifies h`mem, h`markColor, h`markStack, h`markStackPosition, h`pushed, h`before, h.markStack
    modifies h`memoryOldSize, h`nextOldFree, h`nextFree, h`remembered, h`doFullGCNext
    ensures a.address == p && Allocated(old(ViewOf(h)), old(h.mem), ViewOf(h), h.mem, h.remembered, a, kept, fwd, words)
    ensures RememberedIn(ViewOf(h).(oldEnd := a.oldEnd), kept, h.remembered)
    ensures CursorsOk(h) && h.markStack.Length > 0 && (h.markStack == old(h.markStack) || fresh(h.markStack))
    ensures old(h.memoryOldSize) <= h.memoryOldSize <= h.memoryOldLimit
    ensures h.memoryOldSize <= old(h.memoryOldSize) + 2 * h.memoryYoungSize + if a.inOld then words else 0
  {
    hide Layout, RootsIn, RememberedIn, OnlyOldIn, RootsStay, Space, Tiled, Placed, FullRoots, Fits, NoneFits, Survived, InBounds, CursorsOk, InOrder;
    ghost var v0, mem0 := ViewOf(h), h.mem;
    var tries := 0;
    SizeOk(h);
    UsableBounds(h);
    NothingYet(v0, mem0);
    fwd := map[];
    while true
      invariant 0 <= tries <= 2 && Ready(h) && (tries == 0 ==> h.mem == mem0) && (tries > 0 ==> h.nextFree == h.memoryYoung)
      invariant h.memoryOldSize + (2 - tries) * h.memoryYoungSize + words < h.memoryOldLimit && h.memoryYoungSize >= 0
      invariant old(h.memoryOldSize) <= h.memoryOldSize <= old(h.memoryOldSize) + tries * h.memoryYoungSize
      invariant h.markStack == old(h.markStack) || fresh(h.markStack)
      invariant Survived(v0, mem0, h.mem, fwd) && AnchorOf(ViewOf(h)) == AnchorOf(v0)
      decreases 2 - tries
    {
      kept := h.mem;
      ghost var v1 := ViewOf(h);
      IsInOrder(h);
      var ok;
      ok, p, a := TryReady(h, words, tries);
      if ok {
        return;
      }
      if tries == 2 {
        p, a := AllocateFallback(h, words, kept);
        assert ViewOf(h).(oldEnd := a.oldEnd) == v1;
        return;
      }
      fwd := CollectAgain(h, tries == 1 || h.doFullGCNext, v0, mem0, fwd);
      tries := tries + 1;
    }
  }

  /** One try and no collection. */
  method AllocateAtOnce(h: Heap, words: nat) returns (ok: bool, p: int, ghost a: Allocation)
    requires HEADER <= words && Usable(h)
    modifies h`mem, h`nextFree
    ensures ok ==> a.address == p && !a.inOld && a.collections == 0 && CursorsOk(h)
    ensures ok ==> Allocated(old(ViewOf(h)), old(h.mem), ViewOf(h), h.mem, h.remembered, a, old(h.mem), map[], words)
    ensures !ok ==> Usable(h) && h.mem == old(h.mem)
    ensures !ok ==> NoYoungRoom(old(h.mem), old(h.nextFree), h.memoryYoung, h.memoryYoung + h.memoryYoungSize, words) && !h.IsYoung(h.nextFree)
  {
    hide Layout, RootsIn, RememberedIn, OnlyOldIn, RootsStay, Space, Tiled, Placed, FullRoots, Fits, NoneFits, Survived, InBounds, InOrder, CursorsOk;
    ghost var v, mem := ViewOf(h), h.mem;
    UsableBounds(h);
    NothingYet(v, mem);
    IsInOrder(h);
    ok, p, a := TryReady(h, words, 0);
  }

  lemma IsInOrder(h: Heap)
    requires Usable(h)
    ensures InOrder(ViewOf(h), h.mem, h.remembered)
  {
  }

  lemma PlacedKeys(mem: Memory, mem': Memory, a: int, end: int, end': int, p: int, b: Block)
    requires Placed(mem, mem', a, end, end', p, b) && Words(b) >= 0
    ensures a <= p < end' && p in mem' && end <= end' <= end + Words(b) && forall k | !(a <= k < end') && k in mem :: k in mem'
  {
  }

  lemma OldRoom(v: View, mem: Memory, limit: int)
    requires Layout(mem, v.oldStart, v.oldEnd, v.youngStart, v.youngEnd) && (limit <= v.youngStart || v.youngEnd <= v.oldStart)
    ensures forall k | v.oldEnd <= k < limit :: k !in mem
  {
  }
}

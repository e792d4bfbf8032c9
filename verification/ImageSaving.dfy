/** Saving the heap as an image, and the heap an image is loaded into. */
module ImageSaving {
  import opened Wrappers
  import opened HeapModel
  import opened Marking
  import opened Roots
  import opened Forwarding
  import opened Collecting
  import opened ForwardTables
  import opened Images
  import opened ImageFiles

  /** The size prim_save_image gives the table: a quarter of the bytes of both spaces, in entries of 16 bytes. */
  function EntryCount(words: nat): nat {
    (words * 8 / 4 + 15) / 16
  }

  lemma EntriesAre(words: nat)
    ensures EntryCount(words) == (words * 8 / 4 + 15) / 16
  {
  }

  lemma SomeEntries(words: nat)
    requires words > 0
    ensures EntryCount(words) > 0
  {
  }

  lemma BothSpaces(mem: Memory, a: int, b: int, c: int, d: int)
    requires Layout(mem, a, b, c, d)
    ensures UsedIn(mem, a, b) + UsedIn(mem, c, d) == UsedBlocks(mem) && forall x | x in UsedIn(mem, a, b) :: !(c <= x < d)
  {
  }

  lemma NothingWritten(heap: Memory, at: int)
    ensures Holds(heap, map[], map[], at, at) && Copies(heap, map[], map[])
  {
    assert Tiled(map[], at, at);
  }

  /** Every reference in the copies is to an object that was copied. */
  lemma AllForwarded(heap: Memory, g: map<int, int>, image: Memory, a: int, b: int)
    requires Sound(heap) && g.Keys == UsedBlocks(heap) && Holds(heap, g, image, a, b) && Copies(heap, g, image)
    ensures forall k | k in image :: image[k].Used? && forall y | Points(image[k], y) :: y in g
  {
    hide Space;
    forall k | k in image ensures image[k].Used? && forall y | Points(image[k], y) :: y in g {
      assert IsTarget(g, k);
      var x :| x in g && g[x] == k;
      assert IsUsed(heap, x) && image[k] == heap[x];
      forall y | Points(image[k], y) ensures y in g {
        assert IsUsed(heap, y);
      }
    }
  }

  lemma RedirectedImage(heap: Memory, g: map<int, int>, image: Memory, image': Memory, a: int, b: int)
    requires g.Keys == UsedBlocks(heap) && Holds(heap, g, image, a, b) && Copies(heap, g, image)
    requires ChangedTo(Redirect(g), image, image', b) && Space(image', a, b)
    ensures ImageOf(heap, g, image', a, b, false)
  {
    hide Space, Moved;
    forall x | x in g ensures IsUsed(image', g[x]) && IsUsed(heap, x) && image'[g[x]] == Copy(g, heap[x], false) {
      assert IsUsed(image, g[x]) && IsUsed(heap, x);
      assert image[g[x]] == heap[x];
    }
  }

  /** The block at k is at k + d, its references being d higher, too. */
  predicate ShiftedAt(image: Memory, image': Memory, d: int, k: int) {
    (k in image <==> k + d in image') && (k in image && k + d in image' ==> image'[k + d] == ShiftedBlock(image[k], d))
  }

  lemma ShiftedImage(heap: Memory, g: map<int, int>, image: Memory, a: int, b: int, image': Memory, d: int, loaded: bool)
    requires Sound(heap) && ImageOf(heap, g, image, a, b, loaded) && Space(image', a + d, b + d)
    requires forall k :: ShiftedAt(image, image', d, k)
    ensures ImageOf(heap, ShiftMap(g, d), image', a + d, b + d, loaded)
  {
    hide Space, ShiftedBlock, Copy, Moved, ShiftMap;
    forall k ensures MovesUp(image, image', d, k) {
      assert ShiftedAt(image, image', d, k);
      if k in image {
        ShiftIs(d, image[k]);
      }
    }
    ShiftedHolds(heap, g, image, a, b, image', d);
    ShiftMapIs(g, d);
    forall x | x in g ensures image'[ShiftMap(g, d)[x]] == Copy(ShiftMap(g, d), heap[x], loaded) {
      assert IsUsed(heap, x) && IsUsed(image, g[x]);
      assert ShiftedAt(image, image', d, g[x]);
      ShiftedCopy(heap, g, x, d, loaded);
    }
  }

  /** Adjusting the references and then placing the blocks elsewhere. */
  lemma ShiftThenRebase(image: Memory, image': Memory, d: int, b: int, k: int)
    requires ChangedTo(Shift(d), image, image', b) && forall q | q in image :: q < b
    ensures ShiftedAt(image, Rebased(image', d), d, k)
  {
    hide ShiftedBlock, Rebased;
    RebasedAt(image', d, k + d);
    if k in image {
      ShiftIs(d, image[k]);
    }
  }

  /** Placing the blocks elsewhere and then adjusting the references. */
  lemma RebaseThenShift(image: Memory, image': Memory, d: int, b: int, k: int)
    requires ChangedTo(Shift(d), Rebased(image, d), image', b + d) && forall q | q in image :: q < b
    ensures ShiftedAt(image, image', d, k)
  {
    hide ShiftedBlock, Rebased;
    RebasedAt(image, d, k + d);
    if k in image {
      ShiftIs(d, image[k]);
    }
  }

  lemma UnpinnedImage(heap: Memory, g: map<int, int>, image: Memory, a: int, b: int, image': Memory)
    requires ImageOf(heap, g, image, a, b, false) && ChangedTo(ZeroPins, image, image', b) && Space(image', a, b)
    ensures ImageOf(heap, g, image', a, b, true)
  {
    hide Space, Moved;
    forall x | x in g ensures IsUsed(image', g[x]) && IsUsed(heap, x) && image'[g[x]] == Copy(g, heap[x], true) {
      assert IsUsed(image, g[x]) && IsUsed(heap, x);
      assert image[g[x]] == Copy(g, heap[x], false);
    }
  }

  /** The buffer for the image with the objects of both spaces in it; there may be no room in the table. */
  method CopyBoth(heap: Memory, a: int, b: int, c: int, d: int, memoryStart: int)
    returns (ok: bool, buffer: ImageMemory, table: ForwardTable, ghost g: map<int, int>)
    requires Layout(heap, a, b, c, d) && b - a + d - c > 0
    ensures fresh(buffer) && fresh(table) && fresh(table.entries)
    ensures ok <==> |UsedBlocks(heap)| <= EntryCount(b - a + d - c)
    ensures ok ==> buffer.start == memoryStart && buffer.Written(heap, table, g) && g.Keys == UsedBlocks(heap)
  {
    hide *;
    ghost var oldOnes, youngOnes := Spaces(heap, a, b, c, d);
    SomeEntries(b - a + d - c);
    table := new ForwardTable(EntryCount(b - a + d - c));
    buffer := new ImageMemory(map[], memoryStart, memoryStart);
    g := map[];
    NothingWritten(heap, memoryStart);
    buffer.WrittenWhen(heap, table, g);
    ok, g := buffer.CopyUsedObjects(heap, a, b, table, g);
    assert {} + oldOnes == oldOnes;
    if !ok {
      SubsetSize(oldOnes, UsedBlocks(heap));
      return;
    }
    ok, g := buffer.CopyUsedObjects(heap, c, d, table, g);
  }

  lemma Spaces(heap: Memory, a: int, b: int, c: int, d: int) returns (oldOnes: set<int>, youngOnes: set<int>)
    requires Layout(heap, a, b, c, d)
    ensures Space(heap, a, b) && Space(heap, c, d) && oldOnes == UsedIn(heap, a, b) && youngOnes == UsedIn(heap, c, d)
    ensures oldOnes + youngOnes == UsedBlocks(heap) && oldOnes <= UsedBlocks(heap) && forall x | x in oldOnes :: !(c <= x < d)
  {
    oldOnes := UsedIn(heap, a, b);
    youngOnes := UsedIn(heap, c, d);
    BothSpaces(heap, a, b, c, d);
  }

  /** The middle of prim_save_image, on a heap that has just been collected: copied, redirected, and rebased to zero. */
  method WriteImage(heap: Memory, a: int, b: int, c: int, d: int, specialObjects: int, memoryStart: int)
    returns (ok: bool, image: Memory, size: int, special: int, ghost g: map<int, int>)
    requires Layout(heap, a, b, c, d) && b - a + d - c > 0 && IsUsed(heap, specialObjects)
    ensures ok <==> |UsedBlocks(heap)| <= EntryCount(b - a + d - c)
    ensures ok ==> ImageOf(heap, g, image, 0, size, false) && specialObjects in g && special == g[specialObjects]
  {
    hide *;
    image, size, special := map[], 0, 0;
    var buffer, table;
    ghost var g0;
    ok, buffer, table, g0 := CopyBoth(heap, a, b, c, d, memoryStart);
    g := ShiftMap(g0, -memoryStart);
    if !ok {
      return;
    }
    ReadyToAdjust(heap, a, b, c, d, g0, buffer, table, specialObjects);
    ghost var mem0 := buffer.mem;
    buffer.AdjustObjectFieldsWithTable(table, g0);
    ghost var mem1 := buffer.mem;
    ImageRedirected(heap, a, b, c, d, g0, mem0, buffer);
    buffer.AdjustOopPointersFrom(-memoryStart);
    image := Rebased(buffer.mem, -memoryStart);
    size := buffer.end - memoryStart;
    buffer.ValidIs();
    ImageRebased(heap, g0, mem1, buffer.mem, memoryStart, buffer.end);
    var entry := table.Get(specialObjects);
    FoundIs(table.entries[..], specialObjects, g0[specialObjects]);
    special := table.entries[entry.value].value.to - memoryStart;
    ShiftMapIs(g0, -memoryStart);
  }

  lemma ReadyToAdjust(heap: Memory, a: int, b: int, c: int, d: int, g: map<int, int>, buffer: ImageMemory, table: ForwardTable, x: int)
    requires Layout(heap, a, b, c, d) && buffer.Written(heap, table, g) && g.Keys == UsedBlocks(heap) && IsUsed(heap, x)
    ensures Sound(heap) && buffer.Valid() && Represents(table.entries[..], g) && table.entries.Length > 0 && x in g
    ensures Holds(heap, g, buffer.mem, buffer.start, buffer.end) && Copies(heap, g, buffer.mem)
    ensures forall k | k in buffer.mem :: buffer.mem[k].Used? && forall y | Points(buffer.mem[k], y) :: y in g
    ensures Found(table.entries[..], x, g[x])
  {
    hide Space, Slot;
    AllForwarded(heap, g, buffer.mem, buffer.start, buffer.end);
    SlotFinds(table.entries[..], g, x);
  }

  /** Looking x up in the table gives y. */
  ghost predicate Found(t: seq<Option<ForwardPointer>>, x: int, y: int) {
    |t| > 0 && var s := Slot(t, Hash(x, |t|), x, 0); s.Some? && s.value < |t| && t[s.value] == Some(ForwardPointer(x, y))
  }

  lemma FoundIs(t: seq<Option<ForwardPointer>>, x: int, y: int)
    requires Found(t, x, y)
    ensures |t| > 0 && var s := Slot(t, Hash(x, |t|), x, 0); s.Some? && s.value < |t| && t[s.value] == Some(ForwardPointer(x, y))
  {
  }

  lemma ImageRedirected(heap: Memory, a: int, b: int, c: int, d: int, g: map<int, int>, mem0: Memory, buffer: ImageMemory)
    requires Layout(heap, a, b, c, d) && g.Keys == UsedBlocks(heap) && buffer.Valid()
    requires Holds(heap, g, mem0, buffer.start, buffer.end) && Copies(heap, g, mem0) && ChangedTo(Redirect(g), mem0, buffer.mem, buffer.end)
    ensures ImageOf(heap, g, buffer.mem, buffer.start, buffer.end, false)
  {
    hide ImageOf, Holds, Copies, ChangedTo, Space;
    RedirectedImage(heap, g, mem0, buffer.mem, buffer.start, buffer.end);
  }

  lemma ImageRebased(heap: Memory, g: map<int, int>, mem1: Memory, mem2: Memory, start: int, end: int)
    requires Sound(heap) && ImageOf(heap, g, mem1, start, end, false) && Space(mem2, start, end) && ChangedTo(Shift(-start), mem1, mem2, end)
    ensures ImageOf(heap, ShiftMap(g, -start), Rebased(mem2, -start), 0, end - start, false)
  {
    hide *;
    ImageMoved(heap, g, mem1, mem2, start, end, -start);
  }

  lemma ImageMoved(heap: Memory, g: map<int, int>, mem1: Memory, mem2: Memory, a: int, b: int, d: int)
    requires Sound(heap) && ImageOf(heap, g, mem1, a, b, false) && Space(mem2, a, b) && ChangedTo(Shift(d), mem1, mem2, b)
    ensures ImageOf(heap, ShiftMap(g, d), Rebased(mem2, d), a + d, b + d, false)
  {
    ImageBelow(heap, g, mem1, a, b);
    hide *;
    RebasedSpace(mem2, d, a, b);
    AllShifted(mem1, mem2, d, b);
    ShiftedImage(heap, g, mem1, a, b, Rebased(mem2, d), d, false);
  }

  lemma AllShifted(mem1: Memory, mem2: Memory, d: int, b: int)
    requires ChangedTo(Shift(d), mem1, mem2, b) && forall q | q in mem1 :: q < b
    ensures forall k :: ShiftedAt(mem1, Rebased(mem2, d), d, k)
  {
    hide *;
    forall k ensures ShiftedAt(mem1, Rebased(mem2, d), d, k) {
      ShiftThenRebase(mem1, mem2, d, b, k);
    }
  }

  lemma ImageBelow(heap: Memory, g: map<int, int>, image: Memory, a: int, b: int)
    requires ImageOf(heap, g, image, a, b, false)
    ensures forall q | q in image :: q < b
  {
  }

  /** prim_save_image without the file: the heap that a full collection leaves is written, if the table has room for its objects. */
  method SaveImage(h: Heap, memoryStart: int)
    returns (ok: bool, image: Memory, size: int, special: int, ghost fwd: map<int, int>, ghost g: map<int, int>)
    requires h.Valid() && OnlyOld(h) && h.markStack.Length > 0
    requires RootsStay(ViewOf(h), h.mem) && h.memoryOldSize + h.memoryYoungSize < h.memoryOldLimit
    modifies h`mem, h`markColor, h`markStack, h`markStackPosition, h`pushed, h`before, h.markStack
    modifies h`memoryOldSize, h`nextOldFree, h`nextFree, h`remembered, h`doFullGCNext
    ensures h.Valid() && Isomorphic(old(h.mem), old(FullRoots(ViewOf(h), h.mem)), h.mem, fwd, h.markColor)
    ensures RootsStay(ViewOf(h), h.mem) && h.specialObjects !in fwd
    ensures ok <==> |UsedBlocks(h.mem)| <= ((h.memoryOldSize + h.memoryYoungSize) * 8 / 4 + 15) / 16
    ensures ok ==> ImageOf(h.mem, g, image, 0, size, false) && h.specialObjects in g && special == g[h.specialObjects]
  {
    hide *;
    ghost var v, mem0 := ViewOf(h), h.mem;
    SpacesApart(h);
    fwd := FullGc(h);
    HeapIs(h);
    SpecialStays(v, mem0, fwd, h.memoryOld + h.memoryOldSize);
    ok, image, size, special, g := WriteImage(h.mem, h.memoryOld, h.memoryOld + h.memoryOldSize, h.memoryYoung, h.memoryYoung + h.memoryYoungSize,
                                              h.specialObjects, memoryStart);
    EntriesAre(h.memoryOldSize + h.memoryYoungSize);
  }

  lemma SpacesApart(h: Heap)
    requires h.Valid() && RootsStay(ViewOf(h), h.mem)
    ensures var v := ViewOf(h); HasRoots(v, h.mem) && (v.oldEnd <= v.youngStart || v.youngEnd <= v.oldStart) && v.specialObjects == h.specialObjects
  {
  }

  lemma SpecialStays(v: View, mem: Memory, fwd: map<int, int>, oldEnd: int)
    requires RootsStay(v, mem) && MovesYoung(v, mem, FullRoots(v, mem), fwd, oldEnd) && (v.oldEnd <= v.youngStart || v.youngEnd <= v.oldStart)
    ensures v.specialObjects !in fwd
  {
  }

  lemma HeapIs(h: Heap)
    requires h.Valid()
    ensures Layout(h.mem, h.memoryOld, h.memoryOld + h.memoryOldSize, h.memoryYoung, h.memoryYoung + h.memoryYoungSize)
    ensures h.memoryOldSize + h.memoryYoungSize > 0 && IsUsed(h.mem, h.specialObjects)
  {
    SomethingThere(h.mem, h.memoryOld, h.memoryOld + h.memoryOldSize, h.memoryYoung, h.memoryYoung + h.memoryYoungSize, h.specialObjects);
  }

  lemma SomethingThere(heap: Memory, a: int, b: int, c: int, d: int, x: int)
    requires Layout(heap, a, b, c, d) && IsUsed(heap, x)
    ensures b - a + d - c > 0
  {
  }

  /** Loading: the words of the file at address base, adjusted, with no object pinned; x is the array of special objects that was saved. */
  method LoadImage(image: Memory, size: int, special: int, base: int, ghost heap: Memory, ghost g: map<int, int>, ghost x: int)
    returns (loaded: ImageMemory, specialObjects: int)
    requires Sound(heap) && ImageOf(heap, g, image, 0, size, false) && x in g && special == g[x]
    ensures fresh(loaded) && loaded.start == base && loaded.end == base + size
    ensures x in ShiftMap(g, base) && specialObjects == ShiftMap(g, base)[x]
    ensures ImageOf(heap, ShiftMap(g, base), loaded.mem, base, base + size, true)
    ensures forall k | k in loaded.mem :: loaded.mem[k].Used? && loaded.mem[k].pins == 0
  {
    hide *;
    ImageBounds(heap, g, image, base, size);
    loaded := new ImageMemory(Rebased(image, base), base, base + size);
    specialObjects := base + special;
    ShiftMapIs(g, base);
    loaded.ValidWhen();
    loaded.AdjustOopPointersFrom(base);
    ghost var mem1 := loaded.mem;
    loaded.ValidIs();
    LoadedImage(heap, g, image, size, base, mem1);
    loaded.ZeroPinCounts();
    loaded.ValidIs();
    UnpinnedImage(heap, ShiftMap(g, base), mem1, base, base + size, loaded.mem);
    LoadedUnpinned(heap, ShiftMap(g, base), loaded.mem, base, base + size);
  }

  lemma LoadedUnpinned(heap: Memory, g: map<int, int>, image: Memory, a: int, b: int)
    requires ImageOf(heap, g, image, a, b, true)
    ensures forall k | k in image :: image[k].Used? && image[k].pins == 0
  {
    hide Space, Moved;
    forall k | k in image ensures image[k].Used? && image[k].pins == 0 {
      assert IsTarget(g, k);
      var x :| x in g && g[x] == k;
    }
  }

  lemma ImageBounds(heap: Memory, g: map<int, int>, image: Memory, base: int, size: int)
    requires ImageOf(heap, g, image, 0, size, false)
    ensures Space(Rebased(image, base), base, base + size) && forall k | k in Rebased(image, base) :: base <= k < base + size
  {
    RebasedSpace(image, base, 0, size);
    hide Space, Rebased;
    forall k | k in Rebased(image, base) ensures base <= k < base + size {
      RebasedAt(image, base, k);
    }
  }

  lemma LoadedImage(heap: Memory, g: map<int, int>, image: Memory, size: int, base: int, mem1: Memory)
    requires Sound(heap) && ImageOf(heap, g, image, 0, size, false)
    requires ChangedTo(Shift(base), Rebased(image, base), mem1, base + size) && Space(mem1, base, base + size)
    ensures ImageOf(heap, ShiftMap(g, base), mem1, base, base + size, false)
  {
    ImageBelow(heap, g, image, 0, size);
    hide *;
    forall k ensures ShiftedAt(image, mem1, base, k) {
      RebaseThenShift(image, mem1, base, size, k);
    }
    ShiftedImage(heap, g, image, 0, size, mem1, base, false);
  }

  // ---------- what an image means ----------

  /** Reachability is the same in the heap and in its image. */
  lemma SameReachability(heap: Memory, g: map<int, int>, image: Memory, a: int, b: int, loaded: bool, root: int, x: int)
    requires Sound(heap) && ImageOf(heap, g, image, a, b, loaded) && root in g && x in g
    ensures Reachable(heap, UsedBlocks(heap), {root}, x) <==> Reachable(image, UsedBlocks(image), {g[root]}, g[x])
  {
    hide Reachable, ImageOf;
    if Reachable(heap, UsedBlocks(heap), {root}, x) {
      ReachesImage(heap, g, image, a, b, loaded, root, x);
    }
    if Reachable(image, UsedBlocks(image), {g[root]}, g[x]) {
      ReachesHeap(heap, g, image, a, b, loaded, root, x);
    }
  }

  lemma InImage(heap: Memory, g: map<int, int>, image: Memory, a: int, b: int, loaded: bool, x: int)
    requires ImageOf(heap, g, image, a, b, loaded) && x in g
    ensures x in UsedBlocks(heap) && g[x] in UsedBlocks(image)
  {
    hide Space;
    assert IsUsed(image, g[x]);
  }

  lemma KeysAre(heap: Memory, g: map<int, int>, image: Memory, a: int, b: int, loaded: bool, x: int)
    requires Sound(heap) && ImageOf(heap, g, image, a, b, loaded) && x in g && x in heap
    ensures forall y | Points(heap[x], y) :: y in g
  {
    forall y | Points(heap[x], y) ensures y in g {
      assert IsUsed(heap, y);
    }
  }

  lemma ReachesImage(heap: Memory, g: map<int, int>, image: Memory, a: int, b: int, loaded: bool, root: int, x: int)
    requires Sound(heap) && ImageOf(heap, g, image, a, b, loaded) && root in g && x in g
    requires Reachable(heap, UsedBlocks(heap), {root}, x)
    ensures Reachable(image, UsedBlocks(image), {g[root]}, g[x])
  {
    hide Reachable, ImageOf, Points, Sound, UsedBlocks;
    var s := set y | y in g && Reachable(image, UsedBlocks(image), {g[root]}, g[y]);
    RootReachable(image, UsedBlocks(image), {g[root]}, g[root]);
    forall y, z | y in s && y in UsedBlocks(heap) && y in heap && Points(heap[y], z) ensures z in s {
      KeysAre(heap, g, image, a, b, loaded, y);
      SamePoints(heap, g, image, a, b, loaded, y, z);
      InImage(heap, g, image, a, b, loaded, y);
      ReachableStep(image, UsedBlocks(image), {g[root]}, g[y], g[z]);
    }
    ClosedHoldsReachable(heap, UsedBlocks(heap), {root}, s, x);
  }

  lemma ReachesHeap(heap: Memory, g: map<int, int>, image: Memory, a: int, b: int, loaded: bool, root: int, x: int)
    requires Sound(heap) && ImageOf(heap, g, image, a, b, loaded) && root in g && x in g
    requires Reachable(image, UsedBlocks(image), {g[root]}, g[x])
    ensures Reachable(heap, UsedBlocks(heap), {root}, x)
  {
    hide Reachable, ImageOf, Points, Sound, UsedBlocks;
    RootReachable(heap, UsedBlocks(heap), {root}, root);
    var s := set y | y in g && Reachable(heap, UsedBlocks(heap), {root}, y) :: g[y];
    forall k, z | k in s && k in UsedBlocks(image) && k in image && Points(image[k], z) ensures z in s {
      var y :| y in g && Reachable(heap, UsedBlocks(heap), {root}, y) && g[y] == k;
      var w := Referred(heap, g, image, a, b, loaded, y, z);
      InImage(heap, g, image, a, b, loaded, y);
      ReachableStep(heap, UsedBlocks(heap), {root}, y, w);
    }
    ClosedHoldsReachable(image, UsedBlocks(image), {g[root]}, s, g[x]);
    var y :| y in g && Reachable(heap, UsedBlocks(heap), {root}, y) && g[y] == g[x];
    OneToOne(heap, g, image, a, b, loaded, x, y);
  }

  lemma OneToOne(heap: Memory, g: map<int, int>, image: Memory, a: int, b: int, loaded: bool, x: int, y: int)
    requires ImageOf(heap, g, image, a, b, loaded) && x in g && y in g && g[x] == g[y]
    ensures x == y
  {
  }
}

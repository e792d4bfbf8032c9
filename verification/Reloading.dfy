/** An image that is saved and loaded again holds just what was live, wherever it is loaded. */
module Reloading {
  import opened HeapModel
  import opened Marking
  import opened Roots
  import opened Forwarding
  import opened Collecting
  import opened Images
  import opened ImageFiles
  import opened ImageSaving
  import Survival
  import Tenuring

  /** An object as it is loaded: its references renamed, with no pins. */
  function Renewed(place: map<int, int>, b: Block, color: bool): Block
    requires b.Used?
  {
    b.(mark := color, pins := 0, mapOop := Forward(place, b.mapOop), oops := MoveOops(place, b.oops))
  }

  /** What was live is in the loaded memory where place says, with its contents and no pins, and there is nothing else. */
  ghost predicate Reloaded(mem: Memory, roots: set<int>, loaded: Memory, place: map<int, int>, color: bool) {
    && (forall x | Live(mem, roots, x) :: IsUsed(mem, x) && Forward(place, x) in loaded
                                          && loaded[Forward(place, x)] == Renewed(place, mem[x], color))
    && (forall x, y | Live(mem, roots, x) && Live(mem, roots, y) && Forward(place, x) == Forward(place, y) :: x == y)
    && forall k | k in loaded :: IsImage(mem, roots, place, k)
  }

  /** Field by field: a live object is loaded with its kind, hash and raw words, its references renamed, and no pins. */
  lemma ReloadedExactly(mem: Memory, roots: set<int>, loaded: Memory, place: map<int, int>, color: bool, x: int)
    requires Reloaded(mem, roots, loaded, place, color) && Live(mem, roots, x)
    ensures x in mem && mem[x].Used? && Forward(place, x) in loaded && loaded[Forward(place, x)].Used?
    ensures var b, c := mem[x], loaded[Forward(place, x)];
      && c.kind == b.kind && c.hash == b.hash && c.pins == 0 && c.raw == b.raw && c.mapOop == Forward(place, b.mapOop)
      && |c.oops| == |b.oops| && forall k | 0 <= k < |b.oops| :: c.oops[k] == if b.oops[k].Ref? then Ref(Forward(place, b.oops[k].addr)) else b.oops[k]
  {
    hide Live;
  }

  lemma CopiedObject(mem: Memory, roots: set<int>, mem1: Memory, fwd: map<int, int>, color: bool, g: map<int, int>, loaded: Memory, a: int, b: int, x: int)
    requires Isomorphic(mem, roots, mem1, fwd, color) && ImageOf(mem1, g, loaded, a, b, true) && Live(mem, roots, x)
    ensures var place, y := Survival.Then(fwd, g), Forward(fwd, x);
      && y in g && Forward(place, x) == g[y] && IsUsed(mem, x) && g[y] in loaded
      && loaded[g[y]] == Renewed(place, mem[x], color)
  {
    hide Live, Moved, Space;
    var y := Forward(fwd, x);
    assert y in mem1 && mem1[y] == Transferred(fwd, mem[x], color) && IsUsed(mem1, y);
    assert y in g && IsUsed(loaded, g[y]) && loaded[g[y]] == Copy(g, mem1[y], true);
    Survival.ForwardThen(fwd, g, x);
    CopyOfCopy(fwd, g, mem[x], color);
  }

  lemma CopyOfCopy(fwd: map<int, int>, g: map<int, int>, b: Block, color: bool)
    requires b.Used?
    ensures Transferred(fwd, b, color).Used?
    ensures Copy(g, Transferred(fwd, b, color), true) == Renewed(Survival.Then(fwd, g), b, color)
  {
    Survival.MovedThen(fwd, g, b);
  }

  lemma ReloadedIs(mem: Memory, roots: set<int>, mem1: Memory, fwd: map<int, int>, color: bool, g: map<int, int>, loaded: Memory, a: int, b: int)
    requires Isomorphic(mem, roots, mem1, fwd, color) && ImageOf(mem1, g, loaded, a, b, true)
    ensures Reloaded(mem, roots, loaded, Survival.Then(fwd, g), color)
  {
    hide Live, Moved, Space, Isomorphic, ImageOf;
    var place := Survival.Then(fwd, g);
    forall x | Live(mem, roots, x)
      ensures IsUsed(mem, x) && Forward(place, x) in loaded && loaded[Forward(place, x)] == Renewed(place, mem[x], color)
    {
      CopiedObject(mem, roots, mem1, fwd, color, g, loaded, a, b, x);
    }
    forall x, y | Live(mem, roots, x) && Live(mem, roots, y) && Forward(place, x) == Forward(place, y) ensures x == y {
      CopiedObject(mem, roots, mem1, fwd, color, g, loaded, a, b, x);
      CopiedObject(mem, roots, mem1, fwd, color, g, loaded, a, b, y);
      OneToOneBoth(mem, roots, mem1, fwd, color, g, loaded, a, b, x, y);
    }
    forall k | k in loaded ensures IsImage(mem, roots, place, k) {
      NothingElse(mem, roots, mem1, fwd, color, g, loaded, a, b, k);
    }
  }

  lemma OneToOneBoth(mem: Memory, roots: set<int>, mem1: Memory, fwd: map<int, int>, color: bool, g: map<int, int>, loaded: Memory, a: int, b: int,
                     x: int, y: int)
    requires Isomorphic(mem, roots, mem1, fwd, color) && ImageOf(mem1, g, loaded, a, b, true)
    requires Live(mem, roots, x) && Live(mem, roots, y) && Forward(fwd, x) in g && Forward(fwd, y) in g && g[Forward(fwd, x)] == g[Forward(fwd, y)]
    ensures x == y
  {
    hide Live, ImageOf;
    OneToOne(mem1, g, loaded, a, b, true, Forward(fwd, x), Forward(fwd, y));
  }

  lemma NothingElse(mem: Memory, roots: set<int>, mem1: Memory, fwd: map<int, int>, color: bool, g: map<int, int>, loaded: Memory, a: int, b: int, k: int)
    requires Isomorphic(mem, roots, mem1, fwd, color) && ImageOf(mem1, g, loaded, a, b, true) && k in loaded
    ensures IsImage(mem, roots, Survival.Then(fwd, g), k)
  {
    hide Live, Space;
    assert IsTarget(g, k);
    var y :| y in g && g[y] == k;
    assert IsUsed(mem1, y);
    assert IsImage(mem, roots, fwd, y);
    var x :| Live(mem, roots, x) && Forward(fwd, x) == y;
    Survival.ForwardThen(fwd, g, x);
  }

  /** prim_save_image and then loading what it wrote: there is room for it, or all that was live is back. */
  method SaveAndLoad(h: Heap, memoryStart: int, base: int) returns (ok: bool, loaded: ImageMemory?, specialObjects: int, ghost place: map<int, int>)
    requires h.Valid() && OnlyOld(h) && h.markStack.Length > 0
    requires RootsStay(ViewOf(h), h.mem) && h.memoryOldSize + h.memoryYoungSize < h.memoryOldLimit
    modifies h`mem, h`markColor, h`markStack, h`markStackPosition, h`pushed, h`before, h.markStack
    modifies h`memoryOldSize, h`nextOldFree, h`nextFree, h`remembered, h`doFullGCNext
    ensures h.Valid() && h.memoryOldSize + h.memoryYoungSize >= 0
    ensures ok <==> |UsedBlocks(h.mem)| <= ((h.memoryOldSize + h.memoryYoungSize) * 8 / 4 + 15) / 16
    ensures ok ==> loaded != null && fresh(loaded) && Space(loaded.mem, base, loaded.end)
    ensures ok ==> Reloaded(old(h.mem), old(FullRoots(ViewOf(h), h.mem)), loaded.mem, place, h.markColor)
    ensures ok ==> specialObjects == Forward(place, old(h.specialObjects))
  {
    hide *;
    ghost var mem0, v := h.mem, ViewOf(h);
    ghost var roots := CollectedRoots(h);
    var image, size, special;
    ghost var fwd, g;
    ok, image, size, special, fwd, g := SaveImage(h, memoryStart);
    loaded, specialObjects, place := null, 0, map[];
    HeapIs(h);
    if ok {
      HeapSound(h);
      var there;
      there, specialObjects := LoadImage(image, size, special, base, h.mem, g, h.specialObjects);
      loaded := there;
      ghost var g' := ShiftMap(g, base);
      ReloadedIs(mem0, roots, h.mem, fwd, h.markColor, g', loaded.mem, base, base + size);
      LoadedSpace(h.mem, g', loaded.mem, base, base + size);
      place := Survival.Then(fwd, g');
      SpecialThere(fwd, g', h.specialObjects);
    }
  }

  lemma CollectedRoots(h: Heap) returns (roots: set<int>)
    requires h.Valid()
    ensures HasRoots(ViewOf(h), h.mem) && roots == FullRoots(ViewOf(h), h.mem)
  {
    roots := FullRoots(ViewOf(h), h.mem);
  }

  lemma HeapSound(h: Heap)
    requires h.Valid()
    ensures Sound(h.mem)
  {
  }

  lemma LoadedSpace(heap: Memory, g: map<int, int>, image: Memory, a: int, b: int)
    requires ImageOf(heap, g, image, a, b, true)
    ensures Space(image, a, b)
  {
  }

  lemma SpecialThere(fwd: map<int, int>, g: map<int, int>, x: int)
    requires x !in fwd && x in g
    ensures Forward(Survival.Then(fwd, g), x) == g[x]
  {
    Survival.ForwardThen(fwd, g, x);
  }

  // ---------- when there is no room ----------

  /** Small objects, all of them live: an array of special objects, an interpreter and its stack, and an object that has a header and nothing else. */
  function Crowded(): Memory {
    var b := Used(0, false, 0, PlainObject, 0, [], []);
    map[0 := b.(kind := OopArray, oops := [Ref(7), Ref(0), Ref(16)]), 7 := b.(oops := [Ref(12)]), 12 := b.(kind := OopArray), 16 := b, 20 := Free(4)]
  }

  /** The table is too small for them: this is a heap that prim_save_image may be given, and WriteImage gives up on it. */
  lemma SizingCanFail()
    ensures var mem, v := Crowded(), View(0, 20, 20, 24, 0, 7, 0);
      && Layout(mem, 0, 20, 20, 24) && RootsStay(v, mem) && RememberedIn(v, mem, {})
      && (forall x | IsUsed(mem, x) :: Live(mem, FullRoots(v, mem), x))
      && |UsedBlocks(mem)| > EntryCount(20 + 4)
  {
    hide *;
    CrowdedLayout();
    CrowdedRoots();
    CrowdedRemembered();
    CrowdedSize();
  }

  lemma CrowdedSize()
    ensures |UsedBlocks(Crowded())| > EntryCount(20 + 4)
  {
    CrowdedBlocks();
    hide Crowded, UsedBlocks;
  }

  lemma CrowdedRoots()
    ensures var mem, v := Crowded(), View(0, 20, 20, 24, 0, 7, 0);
      RootsStay(v, mem) && forall x | IsUsed(mem, x) :: Live(mem, FullRoots(v, mem), x)
  {
    CrowdedLive();
    CrowdedBlocks();
    hide Crowded, Live, FullRoots, HasRoots;
  }

  lemma CrowdedRemembered()
    ensures RememberedIn(View(0, 20, 20, 24, 0, 7, 0), Crowded(), {})
  {
    hide Crowded, Tenuring.RefersTo;
    forall k | IsUsed(Crowded(), k) ensures !Tenuring.RefersTo(Crowded()[k], 20, 24) {
      CrowdedOld(k);
    }
  }

  lemma CrowdedBlocks()
    ensures UsedBlocks(Crowded()) == {0, 7, 12, 16} && forall x | IsUsed(Crowded(), x) :: x == 0 || x == 7 || x == 12 || x == 16
  {
  }

  lemma CrowdedOld(k: int)
    requires IsUsed(Crowded(), k)
    ensures !Tenuring.RefersTo(Crowded()[k], 20, 24)
  {
    assert forall x | Points(Crowded()[k], x) :: x < 20;
  }

  lemma CrowdedLayout()
    ensures Layout(Crowded(), 0, 20, 20, 24)
  {
    var mem := Crowded();
    assert Tiled(mem, 20, 20) && Tiled(mem, 16, 20) && Tiled(mem, 12, 20) && Tiled(mem, 7, 20) && Tiled(mem, 0, 20);
    assert Tiled(mem, 16, 16) && Tiled(mem, 12, 16) && Tiled(mem, 7, 16) && Tiled(mem, 0, 16);
    assert Tiled(mem, 12, 12) && Tiled(mem, 7, 12) && Tiled(mem, 0, 12);
    assert Tiled(mem, 7, 7) && Tiled(mem, 0, 7) && Tiled(mem, 0, 0);
    assert Tiled(mem, 24, 24) && Tiled(mem, 20, 24);
  }

  lemma CrowdedLive()
    ensures var mem, v := Crowded(), View(0, 20, 20, 24, 0, 7, 0);
      HasRoots(v, mem) && forall x | x == 0 || x == 7 || x == 12 || x == 16 :: Live(mem, FullRoots(v, mem), x)
  {
    var mem, v := Crowded(), View(0, 20, 20, 24, 0, 7, 0);
    var roots := FullRoots(v, mem);
    var xs := mem[0].oops;
    assert xs[0] == Ref(7) && xs[1] == Ref(0) && xs[2] == Ref(16);
    assert 0 in RefsIn(xs) && 7 in RefsIn(xs) && 16 in RefsIn(xs);
    assert 0 in roots && 7 in roots && 16 in roots;
    Survival.LiveRoot(mem, roots, 0);
    Survival.LiveRoot(mem, roots, 7);
    Survival.LiveRoot(mem, roots, 16);
    assert mem[7].oops[0] == Ref(12) && Points(mem[7], 12);
    LiveClosed(mem, roots, 7, 12);
  }
}

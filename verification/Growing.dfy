/** interpreter_grow_stack in the heap: a longer array takes the place of the interpreter's stack, and no barrier sees it. */
module Growing {
  import opened HeapModel
  import opened Marking
  import opened Roots
  import opened Allocating
  import opened Forwarding
  import opened Tenuring
  import opened Collecting
  import opened YoungCollecting
  import opened Survival
  import opened YoungAllocating
  import opened Cloning
  import opened TableSizes

  /** Where nil and the prototype of arrays are among the special objects. */
  const SPECIAL_OOP_NIL: nat := 2
  const SPECIAL_OOP_ARRAY_PROTO: nat := 5

  /** The stack's size doubles until it is at least the minimum; it does so once at least. */
  function Enlarged(n: nat, minimum: nat): (r: nat)
    requires 0 < n
    ensures 2 * n <= r && minimum <= r
    decreases minimum - n
  {
    if 2 * n >= minimum then 2 * n else Enlarged(2 * n, minimum)
  }

  /** It doubles no more often than it has to. */
  lemma {:induction false} EnlargedIsFirst(n: nat, minimum: nat) returns (k: nat)
    requires 0 < n
    ensures 1 <= k && Enlarged(n, minimum) == n * Pow2(k) && (k == 1 || n * Pow2(k - 1) < minimum)
    decreases minimum - n
  {
    assert Pow2(0) == 1 && Pow2(1) == 2;
    hide Pow2;
    if 2 * n >= minimum {
      return 1;
    }
    k := EnlargedIsFirst(2 * n, minimum);
    TimesPow2(n, k);
    TimesPow2(n, k - 1);
    k := k + 1;
  }

  lemma TimesPow2(n: nat, k: nat)
    ensures (2 * n) * Pow2(k) == n * Pow2(k + 1)
  {
    assert Pow2(k + 1) == 2 * Pow2(k);
    hide Pow2;
    TimesTwice(n, Pow2(k));
  }

  lemma TimesTwice(n: nat, x: nat)
    ensures (2 * n) * x == n * (2 * x)
  {
  }

  /** There is a stack to double, and the special objects that the new one is made of. */
  predicate CanGrow(mem: Memory, a: Anchor) {
    && IsUsed(mem, a.specialObjects) && HasStack(mem, a.interpreter)
    && 0 < |mem[StackOf(mem, a.interpreter)].oops| && a.stackPointer <= |mem[StackOf(mem, a.interpreter)].oops|
    && var xs := mem[a.specialObjects].oops;
       SPECIAL_OOP_ARRAY_PROTO < |xs| && xs[SPECIAL_OOP_ARRAY_PROTO].Ref? && IsUsed(mem, xs[SPECIAL_OOP_ARRAY_PROTO].addr)
  }

  function GrownSize(mem: Memory, a: Anchor, minimum: nat): (r: nat)
    requires CanGrow(mem, a)
    ensures a.stackPointer <= r
  {
    Enlarged(|mem[StackOf(mem, a.interpreter)].oops|, minimum)
  }

  lemma GrownSizeIsFirst(mem: Memory, a: Anchor, minimum: nat)
    requires CanGrow(mem, a)
    ensures minimum <= GrownSize(mem, a, minimum)
    ensures var n := |mem[StackOf(mem, a.interpreter)].oops|;
            exists k: nat | 1 <= k :: GrownSize(mem, a, minimum) == n * Pow2(k) && (k == 1 || n * Pow2(k - 1) < minimum)
  {
    var k := EnlargedIsFirst(|mem[StackOf(mem, a.interpreter)].oops|, minimum);
  }

  function Filler(o: Oop, n: nat): (r: seq<Oop>)
    ensures |r| == n && forall k | 0 <= k < n :: r[k] == o
  {
    seq(n, _ => o)
  }

  /** The new stack: an array of that size, with what is in use of the old one and nil behind it. */
  function NewStack(mem: Memory, a: Anchor, size: nat, hash: nat, color: bool): (b: Block)
    requires CanGrow(mem, a) && a.stackPointer <= size
    ensures b.Used? && Words(b) == HEADER + size && b.pins == 0 && |b.oops| == size
  {
    var xs := mem[a.specialObjects].oops;
    Used(hash, color, 0, OopArray, mem[xs[SPECIAL_OOP_ARRAY_PROTO].addr].mapOop,
         mem[StackOf(mem, a.interpreter)].oops[..a.stackPointer] + Filler(xs[SPECIAL_OOP_NIL], size - a.stackPointer), [])
  }

  lemma NewStackPoints(mem: Memory, a: Anchor, size: nat, hash: nat, color: bool, y: int)
    requires CanGrow(mem, a) && a.stackPointer <= size && Points(NewStack(mem, a, size, hash, color), y)
    ensures Points(mem[a.specialObjects], y) || Points(mem[StackOf(mem, a.interpreter)], y)
         || Points(mem[mem[a.specialObjects].oops[SPECIAL_OOP_ARRAY_PROTO].addr], y)
  {
    var b, cells := NewStack(mem, a, size, hash, color), mem[StackOf(mem, a.interpreter)].oops;
    if b.mapOop != y {
      var i :| 0 <= i < |b.oops| && b.oops[i] == Ref(y);
      if i < a.stackPointer {
        assert cells[i] == Ref(y) && Ref(y) in cells;
      } else {
        assert mem[a.specialObjects].oops[SPECIAL_OOP_NIL] == Ref(y);
      }
    }
  }

  /** The new stack is the same wherever the objects in use are the same. */
  lemma SameNewStack(kept: Memory, mem: Memory, a: Anchor, size: nat, hash: nat, color: bool)
    requires CanGrow(kept, a) && a.stackPointer <= size && forall k | IsUsed(kept, k) :: k in mem && mem[k] == kept[k]
    ensures CanGrow(mem, a) && NewStack(mem, a, size, hash, color) == NewStack(kept, a, size, hash, color)
    ensures StackOf(mem, a.interpreter) == StackOf(kept, a.interpreter)
  {
  }

  /** A heap that can grow its stack still can after collections, by as much. */
  lemma CanGrowStill(v: View, mem: Memory, kept: Memory, fwd: map<int, int>)
    requires RootsStay(v, mem) && InBounds(v, mem) && Survived(v, mem, kept, fwd) && CanGrow(mem, AnchorOf(v)) && Sound(kept)
    ensures CanGrow(kept, AnchorOf(v))
    ensures |kept[StackOf(kept, v.interpreter)].oops| == |mem[StackOf(mem, v.interpreter)].oops|
  {
    hide Live, FullRoots, RootsOf, Represents, RootsStay;
    RootsGround(v, mem);
    AnchorCarried(mem, AnchorOf(v), kept, fwd);
    var xs, ys := mem[v.specialObjects].oops, kept[v.specialObjects].oops;
    assert ys[SPECIAL_OOP_ARRAY_PROTO] == Ref(Forward(fwd, xs[SPECIAL_OOP_ARRAY_PROTO].addr));
    assert ys[SPECIAL_OOP_ARRAY_PROTO] in ys;
    assert Points(kept[v.specialObjects], ys[SPECIAL_OOP_ARRAY_PROTO].addr);
  }

  // ---------- a new block ----------

  /** A block has been allocated at p, in the heap `kept` that the collections left, if there were any. */
  ghost predicate Room(v: View, mem: Memory, v': View, mem1: Memory, remembered': set<int>, vk: View, kept: Memory, p: int, inOld: bool,
                       fwd: map<int, int>)
  {
    && HasRoots(v, mem) && RootsStay(v, mem) && InBounds(v, mem) && Survived(v, mem, kept, fwd)
    && v' == v.(oldEnd := v'.oldEnd) && v.oldEnd <= v'.oldEnd && vk == v.(oldEnd := vk.oldEnd) && vk.oldEnd <= v'.oldEnd
    && Layout(kept, vk.oldStart, vk.oldEnd, vk.youngStart, vk.youngEnd) && OnlyOldIn(vk, kept, remembered')
    && Space(mem1, v'.oldStart, v'.oldEnd) && Space(mem1, v'.youngStart, v'.youngEnd) && InBounds(v', mem1)
    && (v'.oldEnd <= v'.youngStart || v'.youngEnd <= v'.oldStart)
    && p in mem1 && !IsUsed(kept, p) && (inOld <==> v'.oldStart <= p < v'.oldEnd)
    && (forall k | k != p && IsUsed(mem1, k) :: IsUsed(kept, k))
    && (forall k | IsUsed(kept, k) :: k in mem1 && mem1[k] == kept[k])
    && (forall k | vk.oldEnd <= k < v'.oldEnd :: k == p || !IsUsed(mem1, k))
  }

  lemma RoomIs(v: View, mem: Memory, v': View, mem1: Memory, remembered': set<int>, a: Allocation, kept: Memory, fwd: map<int, int>, words: nat)
    requires HasRoots(v, mem) && RootsStay(v, mem) && InBounds(v, mem) && HEADER <= words
    requires Allocated(v, mem, v', mem1, remembered', a, kept, fwd, words)
    requires (v'.oldEnd <= v'.youngStart || v'.youngEnd <= v'.oldStart) && v' == v.(oldEnd := v'.oldEnd) && v.oldEnd <= v'.oldEnd
    ensures Room(v, mem, v', mem1, remembered', v'.(oldEnd := a.oldEnd), kept, a.address, a.inOld, fwd)
    ensures a.address in mem1 && Words(mem1[a.address]) == words
  {
    hide Survived, InOrder, Allocated, RootsStay, HasRoots, RootsIn, Layout, Placed, InBounds, OnlyOldIn, NewBlock, Space, Words;
    var b, vk := NewBlock(a.hash, words), v'.(oldEnd := a.oldEnd);
    AllocatedIs(v, mem, v', mem1, remembered', a, kept, fwd, words);
    OrderIs(vk, kept, remembered');
    NewBlockWords(a.hash, words);
    PlacedSpaces(vk, kept, v', mem1, a.inOld, a.address, b);
  }

  /** Any contents that refer to nothing new may be put into the block. */
  lemma PutInOrder(v: View, mem: Memory, v': View, mem1: Memory, remembered': set<int>, vk: View, kept: Memory, p: int, inOld: bool,
                   fwd: map<int, int>, b: Block)
    requires Room(v, mem, v', mem1, remembered', vk, kept, p, inOld, fwd) && b.Used? && p in mem1 && Words(mem1[p]) == Words(b)
    requires forall y | Points(b, y) :: IsUsed(kept, y)
    ensures InOrder(v', mem1[p := b], remembered')
    ensures RememberedIn(v', mem1[p := b], remembered') <==> RememberedIn(vk, kept, remembered') && !(inOld && RefersTo(b, v'.youngStart, v'.youngEnd))
    ensures HasRoots(v, mem) && Survived(v, mem, mem1[p := b], fwd) && forall x | Live(mem, FullRoots(v, mem), x) :: Forward(fwd, x) != p
  {
    hide Survived, RootsStay, HasRoots, Layout, Space, RememberedIn, OnlyOldIn, Live, FullRoots, RefersTo;
    PutLayout(vk, v', kept, mem1, p, b);
    PutSurvived(v, mem, kept, mem1, fwd, p, b);
    PutRemembered(v', kept, mem1, p, b);
    FilledRemembered(vk, v', kept, mem1[p := b], remembered', p);
    BoundsOf(v', mem1[p := b]);
    PutGrounded(v, mem, v', mem1[p := b], fwd);
  }

  lemma PutLayout(vk: View, v': View, kept: Memory, mem1: Memory, p: int, b: Block)
    requires Layout(kept, vk.oldStart, vk.oldEnd, vk.youngStart, vk.youngEnd) && InBounds(v', mem1)
    requires Space(mem1, v'.oldStart, v'.oldEnd) && Space(mem1, v'.youngStart, v'.youngEnd) && (v'.oldEnd <= v'.youngStart || v'.youngEnd <= v'.oldStart)
    requires b.Used? && p in mem1 && Words(mem1[p]) == Words(b) && forall y | Points(b, y) :: IsUsed(kept, y)
    requires !IsUsed(kept, p) && (forall k | k != p && IsUsed(mem1, k) :: IsUsed(kept, k)) && forall k | IsUsed(kept, k) :: k in mem1 && mem1[k] == kept[k]
    ensures Layout(mem1[p := b], v'.oldStart, v'.oldEnd, v'.youngStart, v'.youngEnd)
  {
    var mem2 := mem1[p := b];
    SpaceSame(mem1, mem2, v'.oldStart, v'.oldEnd);
    SpaceSame(mem1, mem2, v'.youngStart, v'.youngEnd);
    hide Tiled, Space;
    forall k, y | k in mem2 && Points(mem2[k], y) ensures IsUsed(mem2, y) {
      if k != p {
        assert IsUsed(mem1, k) && Points(kept[k], y);
      }
      assert IsUsed(kept, y);
    }
  }

  lemma PutSurvived(v: View, mem: Memory, kept: Memory, mem1: Memory, fwd: map<int, int>, p: int, b: Block)
    requires HasRoots(v, mem) && Survived(v, mem, kept, fwd) && !IsUsed(kept, p) && forall k | IsUsed(kept, k) :: k in mem1 && mem1[k] == kept[k]
    ensures Survived(v, mem, mem1[p := b], fwd) && forall x | Live(mem, FullRoots(v, mem), x) :: Forward(fwd, x) != p
  {
    hide Live, FullRoots, Moved, SameButMark;
    forall x | Live(mem, FullRoots(v, mem), x) ensures Represented(mem, mem1[p := b], fwd, x) && Forward(fwd, x) != p {
      assert Represented(mem, kept, fwd, x);
    }
  }

  lemma PutRemembered(v': View, kept: Memory, mem1: Memory, p: int, b: Block)
    requires b.Used? && !IsUsed(kept, p)
    requires (forall k | k != p && IsUsed(mem1, k) :: IsUsed(kept, k)) && forall k | IsUsed(kept, k) :: k in mem1 && mem1[k] == kept[k]
    ensures var mem2 := mem1[p := b];
      && IsUsed(mem2, p) && (forall k | k != p :: IsUsed(mem2, k) <==> IsUsed(kept, k)) && (forall k | k != p :: IsUsed(mem2, k) <==> IsUsed(mem1, k))
      && forall k, y | k != p && IsUsed(kept, k) && IsUsed(mem2, k) :: Points(mem2[k], y) <==> Points(kept[k], y)
  {
  }

  lemma PutGrounded(v: View, mem: Memory, v': View, mem2: Memory, fwd: map<int, int>)
    requires RootsStay(v, mem) && InBounds(v, mem) && HasRoots(v, mem) && Survived(v, mem, mem2, fwd)
    requires v' == v.(oldEnd := v'.oldEnd) && v.oldEnd <= v'.oldEnd && InBounds(v', mem2)
    ensures RootsStay(v', mem2)
  {
    hide Live, FullRoots, RootsOf, Represents, Represented;
    RootsGround(v, mem);
    GroundedCarried(mem, AnchorOf(v), mem2, fwd);
    assert Anchoring(AnchorOf(v), fwd) == AnchorOf(v');
    FullRootsAre(v', mem2);
  }

  /** A block of so many words, in what is left or, unless it has to be at once, after collections. */
  method AllocateFor(h: Heap, words: nat, atOnce: bool)
    returns (ok: bool, p: int, ghost inOld: bool, ghost vk: View, ghost kept: Memory, ghost fwd: map<int, int>)
    requires HEADER <= words && Usable(h)
    requires !atOnce ==> RememberedOk(h) && h.memoryOldSize + 2 * h.memoryYoungSize + words < h.memoryOldLimit
    modifies h`mem, h`markColor, h`markStack, h`markStackPosition, h`pushed, h`before, h.markStack
    modifies h`memoryOldSize, h`nextOldFree, h`nextFree, h`remembered, h`doFullGCNext
    ensures (h.markStack == old(h.markStack) || fresh(h.markStack)) && old(h.memoryOldSize) <= h.memoryOldSize
    ensures ok ==> Room(old(ViewOf(h)), old(h.mem), ViewOf(h), h.mem, h.remembered, vk, kept, p, inOld, fwd) && Bordered(h, h.mem.Keys)
    ensures ok ==> p in h.mem && Words(h.mem[p]) == words && (RememberedIn(vk, kept, h.remembered) <==> old(RememberedOk(h)))
    ensures !ok ==> atOnce && Usable(h) && h.mem == old(h.mem) && (RememberedOk(h) <==> old(RememberedOk(h)))
    ensures !ok ==> NoYoungRoom(old(h.mem), old(h.nextFree), h.memoryYoung, h.memoryYoung + h.memoryYoungSize, words) && !h.IsYoung(h.nextFree)
  {
    hide NoYoungRoom, Layout, RootsIn, HasRoots, RememberedIn, OnlyOldIn, RootsStay, Survived, Allocated, InOrder, InBounds, FullRoots, CursorsOk, Room, Words,
      Heap.Valid;
    ghost var v, mem := ViewOf(h), h.mem;
    UsableIs(h);
    ghost var a;
    if atOnce {
      kept, fwd := h.mem, map[];
      ok, p, a := AllocateAtOnce(h, words);
      if !ok {
        return false, p, false, v, kept, fwd;
      }
      AllocatedIs(v, mem, ViewOf(h), h.mem, h.remembered, a, kept, fwd, words);
    } else {
      ok := true;
      p, a, kept, fwd := Allocate(h, words);
    }
    inOld, vk := a.inOld, ViewOf(h).(oldEnd := a.oldEnd);
    BorderedWhen(h);
    RoomIs(v, mem, ViewOf(h), h.mem, h.remembered, a, kept, fwd, words);
  }

  lemma UsableIs(h: Heap)
    requires Usable(h)
    ensures var v := ViewOf(h); HasRoots(v, h.mem) && RootsStay(v, h.mem) && InBounds(v, h.mem)
    ensures h.memoryOld + h.memoryOldLimit <= h.memoryYoung || h.memoryYoung + h.memoryYoungSize <= h.memoryOld
    ensures h.memoryOldSize <= h.memoryOldLimit && h.markStack.Length > 0
  {
  }

  /** The heap with its new stack, before the interpreter refers to it. */
  ghost predicate Grown(v: View, mem: Memory, mem2: Memory, p: int, size: nat, hash: nat, color: bool, fwd: map<int, int>)
    requires HasRoots(v, mem)
  {
    && Survived(v, mem, mem2, fwd) && (forall x | Live(mem, FullRoots(v, mem), x) :: Forward(fwd, x) != p)
    && CanGrow(mem2, AnchorOf(v)) && v.stackPointer <= size && p in mem2 && mem2[p] == NewStack(mem2, AnchorOf(v), size, hash, color)
  }

  /** The contents of the new stack. */
  method FillStack(h: Heap, p: int, size: nat, hash: nat, ghost v: View, ghost mem: Memory, ghost vk: View, ghost kept: Memory, ghost inOld: bool,
                   ghost fwd: map<int, int>)
    requires Room(v, mem, ViewOf(h), h.mem, h.remembered, vk, kept, p, inOld, fwd) && Bordered(h, h.mem.Keys) && v.stackPointer <= size
    requires CanGrow(mem, AnchorOf(v)) && p in h.mem && Words(h.mem[p]) == HEADER + size
    modifies h`mem
    ensures HasRoots(v, mem) && Grown(v, mem, h.mem, p, size, hash, h.markColor, fwd) && Usable(h) && p !in h.remembered
    ensures RememberedOk(h)
       <==> RememberedIn(vk, kept, h.remembered) && !(inOld && RefersTo(h.mem[p], h.memoryYoung, h.memoryYoung + h.memoryYoungSize))
  {
    hide Layout, RootsIn, HasRoots, RememberedIn, OnlyOldIn, RootsStay, Survived, InOrder, InBounds, FullRoots, CursorsOk, Room, Words, Usable, Live,
      RefersTo, CanGrow, NewStack, Heap.Valid;
    ghost var mem1, v', a := h.mem, ViewOf(h), AnchorOf(v);
    RoomSays(v, mem, v', mem1, h.remembered, vk, kept, p, inOld, fwd);
    CanGrowStill(v, mem, kept, fwd);
    SameNewStack(kept, mem1, a, size, hash, h.markColor);
    var b := NewStack(h.mem, HereAnchor(h), size, hash, h.markColor);
    NewStackUsed(kept, a, size, hash, h.markColor);
    PutInOrder(v, mem, v', mem1, h.remembered, vk, kept, p, inOld, fwd, b);
    h.mem := h.mem[p := b];
    SameNewStack(kept, h.mem, a, size, hash, h.markColor);
    UsableAgain(h);
  }

  lemma RoomSays(v: View, mem: Memory, v': View, mem1: Memory, remembered': set<int>, vk: View, kept: Memory, p: int, inOld: bool, fwd: map<int, int>)
    requires Room(v, mem, v', mem1, remembered', vk, kept, p, inOld, fwd)
    ensures HasRoots(v, mem) && RootsStay(v, mem) && InBounds(v, mem) && Survived(v, mem, kept, fwd) && Sound(kept) && v' == v.(oldEnd := v'.oldEnd)
    ensures !IsUsed(kept, p) && (forall k | IsUsed(kept, k) :: k in mem1 && mem1[k] == kept[k]) && p !in remembered'
    ensures inOld <==> v'.oldStart <= p < v'.oldEnd
  {
  }

  lemma NewStackUsed(mem: Memory, a: Anchor, size: nat, hash: nat, color: bool)
    requires CanGrow(mem, a) && a.stackPointer <= size && Sound(mem)
    ensures forall y | Points(NewStack(mem, a, size, hash, color), y) :: IsUsed(mem, y)
  {
    hide NewStack, Points;
    forall y | Points(NewStack(mem, a, size, hash, color), y) ensures IsUsed(mem, y) {
      NewStackPoints(mem, a, size, hash, color, y);
    }
  }

  /** The array that takes the place of the stack. */
  method MakeStack(h: Heap, minimum: nat, hash: nat, atOnce: bool) returns (ok: bool, p: int, ghost inOld: bool, ghost fwd: map<int, int>)
    requires Usable(h) && CanGrow(h.mem, HereAnchor(h))
    requires !atOnce ==> RememberedOk(h)
    requires !atOnce ==> h.memoryOldSize + 2 * h.memoryYoungSize + HEADER + GrownSize(h.mem, HereAnchor(h), minimum) < h.memoryOldLimit
    modifies h`mem, h`markColor, h`markStack, h`markStackPosition, h`pushed, h`before, h.markStack
    modifies h`memoryOldSize, h`nextOldFree, h`nextFree, h`remembered, h`doFullGCNext
    ensures (h.markStack == old(h.markStack) || fresh(h.markStack)) && old(h.memoryOldSize) <= h.memoryOldSize && Usable(h)
    ensures ok ==> HasRoots(old(ViewOf(h)), old(h.mem)) && RootsStay(old(ViewOf(h)), old(h.mem)) && InBounds(old(ViewOf(h)), old(h.mem))
    ensures ok ==> Grown(old(ViewOf(h)), old(h.mem), h.mem, p, old(GrownSize(h.mem, HereAnchor(h), minimum)), hash, h.markColor, fwd)
    ensures ok ==> p !in h.remembered && (inOld <==> h.IsOld(p)) && IsUsed(h.mem, p) && h.stackPointer <= |h.mem[p].oops| && p != h.interpreter
    ensures ok ==> (RememberedOk(h) <==> old(RememberedOk(h)) && !(inOld && RefersTo(h.mem[p], h.memoryYoung, h.memoryYoung + h.memoryYoungSize)))
    ensures !ok ==> atOnce && h.mem == old(h.mem) && (RememberedOk(h) <==> old(RememberedOk(h)))
    ensures !ok ==> !h.IsYoung(h.nextFree)
    ensures !ok ==> NoYoungRoom(old(h.mem), old(h.nextFree), h.memoryYoung, h.memoryYoung + h.memoryYoungSize,
                                HEADER + old(GrownSize(h.mem, HereAnchor(h), minimum)))
  {
    hide NoYoungRoom, Layout, RootsIn, HasRoots, RememberedIn, OnlyOldIn, RootsStay, Survived, InBounds, FullRoots, Room, Words, Usable, Live, RefersTo, CanGrow,
      NewStack, Grown, Heap.Valid;
    ghost var v, mem := ViewOf(h), h.mem;
    CanGrowSays(mem, AnchorOf(v));
    var size := GrownSize(h.mem, HereAnchor(h), minimum);
    ghost var vk, kept;
    ok, p, inOld, vk, kept, fwd := AllocateFor(h, HEADER + size, atOnce);
    if !ok {
      return;
    }
    RoomSays(v, mem, ViewOf(h), h.mem, h.remembered, vk, kept, p, inOld, fwd);
    FillStack(h, p, size, hash, v, mem, vk, kept, inOld, fwd);
    GrownSays(v, mem, h.mem, p, size, hash, h.markColor, fwd);
    StackNotItself(v, mem, h.mem, p, size, hash, h.markColor, fwd);
  }

  /**
   * interpreter_grow_stack: the new stack, with what is in use of the old one, is the interpreter's. A right remembered
   * set stays right if and only if the stack is in old space and refers to nothing young, or it is young and the
   * interpreter was remembered already.
   */
  method Grow(h: Heap, minimum: nat, hash: nat, atOnce: bool) returns (ok: bool, p: int, ghost inOld: bool, ghost mem2: Memory, ghost fwd: map<int, int>)
    requires Usable(h) && CanGrow(h.mem, HereAnchor(h))
    requires !atOnce ==> RememberedOk(h)
    requires !atOnce ==> h.memoryOldSize + 2 * h.memoryYoungSize + HEADER + GrownSize(h.mem, HereAnchor(h), minimum) < h.memoryOldLimit
    modifies h`mem, h`markColor, h`markStack, h`markStackPosition, h`pushed, h`before, h.markStack
    modifies h`memoryOldSize, h`nextOldFree, h`nextFree, h`remembered, h`doFullGCNext
    ensures (h.markStack == old(h.markStack) || fresh(h.markStack)) && old(h.memoryOldSize) <= h.memoryOldSize
    ensures ok ==> Grown(old(ViewOf(h)), old(h.mem), mem2, p, old(GrownSize(h.mem, HereAnchor(h), minimum)), hash, h.markColor, fwd)
    ensures ok ==> IsUsed(mem2, h.interpreter) && STACK_SLOT < |mem2[h.interpreter].oops|
                   && h.mem == mem2[h.interpreter := mem2[h.interpreter].(oops := mem2[h.interpreter].oops[STACK_SLOT := Ref(p)])]
    ensures ok ==> h.Valid() && OnlyOld(h) && CursorsOk(h) && h.markStack.Length > 0 && IsUsed(h.mem, p) && (inOld <==> h.IsOld(p))
    ensures ok ==> h.mem[p].kind == OopArray && h.mem[p].raw == [] && h.mem[p].pins == 0 && h.mem[p].hash == hash
    ensures ok ==> h.mem[p].mapOop == Forward(fwd, old(h.mem[h.mem[h.specialObjects].oops[SPECIAL_OOP_ARRAY_PROTO].addr].mapOop))
    ensures ok ==> minimum <= |h.mem[p].oops|
                   && var n := old(|h.mem[StackOf(h.mem, h.interpreter)].oops|);
                      exists k: nat | 1 <= k :: |h.mem[p].oops| == n * Pow2(k) && (k == 1 || n * Pow2(k - 1) < minimum)
    ensures ok ==> forall k | 0 <= k < h.stackPointer :: h.mem[p].oops[k] == MoveOop(fwd, old(h.mem[StackOf(h.mem, h.interpreter)].oops)[k])
    ensures ok ==> forall k | h.stackPointer <= k < |h.mem[p].oops| :: h.mem[p].oops[k] == MoveOop(fwd, old(h.mem[h.specialObjects].oops[SPECIAL_OOP_NIL]))
    ensures ok && old(RememberedOk(h)) ==>
              (RememberedOk(h) <==> if inOld then !RefersTo(h.mem[p], h.memoryYoung, h.memoryYoung + h.memoryYoungSize) else h.interpreter in h.remembered)
    ensures !ok ==> atOnce && Usable(h) && h.mem == old(h.mem) && (RememberedOk(h) <==> old(RememberedOk(h)))
    ensures !ok ==> !h.IsYoung(h.nextFree)
    ensures !ok ==> NoYoungRoom(old(h.mem), old(h.nextFree), h.memoryYoung, h.memoryYoung + h.memoryYoungSize,
                                HEADER + old(GrownSize(h.mem, HereAnchor(h), minimum)))
  {
    hide NoYoungRoom, Layout, RootsIn, HasRoots, RememberedIn, OnlyOldIn, RootsStay, Survived, InBounds, FullRoots, Room, Words, Usable, Live, RefersTo, CanGrow,
      NewStack, Grown, Heap.Valid;
    ghost var v, mem := ViewOf(h), h.mem;
    ok, p, inOld, fwd := MakeStack(h, minimum, hash, atOnce);
    mem2 := h.mem;
    if ok {
      GrownHolds(v, mem, mem2, p, GrownSize(mem, AnchorOf(v), minimum), hash, h.markColor, fwd);
      GrownSizeIsFirst(mem, AnchorOf(v), minimum);
      UsableSays(h);
      ReplaceStack(h, p, inOld);
    }
  }

  /** i -> stack = newStack: no barrier sees it. */
  method ReplaceStack(h: Heap, p: int, ghost inOld: bool)
    requires Usable(h) && IsUsed(h.mem, p) && h.stackPointer <= |h.mem[p].oops| && p != h.interpreter && p !in h.remembered && (inOld <==> h.IsOld(p))
    modifies h`mem
    ensures IsUsed(old(h.mem), h.interpreter) && STACK_SLOT < |old(h.mem)[h.interpreter].oops|
    ensures h.mem == old(h.mem)[h.interpreter := old(h.mem)[h.interpreter].(oops := old(h.mem)[h.interpreter].oops[STACK_SLOT := Ref(p)])]
    ensures h.Valid() && OnlyOld(h) && CursorsOk(h) && IsUsed(h.mem, p)
    ensures old(RememberedOk(h)) ==> (RememberedOk(h) <==> inOld || h.interpreter in h.remembered)
    ensures RememberedOk(h) ==> !(inOld && RefersTo(h.mem[p], h.memoryYoung, h.memoryYoung + h.memoryYoungSize))
    ensures h.mem[p] == old(h.mem)[p]
  {
    hide Layout, RootsIn, RememberedIn, OnlyOldIn, RootsStay, Words, Usable, RefersTo, Heap.Valid;
    UsableSays(h);
    StackSays(h);
    InOneSpace(h, p);
    StoreUnseen(h, h.interpreter, STACK_SLOT, Ref(p));
    UnnoticedMissing(h, p);
  }

  lemma StackSays(h: Heap)
    requires h.Valid()
    ensures HasStack(h.mem, h.interpreter)
  {
  }

  lemma CanGrowSays(mem: Memory, a: Anchor)
    requires CanGrow(mem, a)
    ensures HasStack(mem, a.interpreter) && 0 < |mem[StackOf(mem, a.interpreter)].oops| && a.stackPointer <= |mem[StackOf(mem, a.interpreter)].oops|
  {
  }

  lemma GrownSays(v: View, mem: Memory, mem2: Memory, p: int, size: nat, hash: nat, color: bool, fwd: map<int, int>)
    requires HasRoots(v, mem) && Grown(v, mem, mem2, p, size, hash, color, fwd)
    ensures IsUsed(mem2, p) && |mem2[p].oops| == size && v.stackPointer <= size && HasStack(mem2, v.interpreter)
  {
  }

  /** What is in use of the stack as it was, wherever that is now, and nil behind it. */
  lemma GrownHolds(v: View, mem: Memory, mem2: Memory, p: int, size: nat, hash: nat, color: bool, fwd: map<int, int>)
    requires RootsStay(v, mem) && InBounds(v, mem) && CanGrow(mem, AnchorOf(v)) && Grown(v, mem, mem2, p, size, hash, color, fwd)
    ensures IsUsed(mem2, p) && |mem2[p].oops| == size
    ensures mem2[p].kind == OopArray && mem2[p].raw == [] && mem2[p].pins == 0 && mem2[p].hash == hash
    ensures mem2[p].mapOop == Forward(fwd, mem[mem[v.specialObjects].oops[SPECIAL_OOP_ARRAY_PROTO].addr].mapOop)
    ensures forall k | 0 <= k < v.stackPointer :: mem2[p].oops[k] == MoveOop(fwd, mem[StackOf(mem, v.interpreter)].oops[k])
    ensures forall k | v.stackPointer <= k < size :: mem2[p].oops[k] == MoveOop(fwd, mem[v.specialObjects].oops[SPECIAL_OOP_NIL])
  {
    hide Live, FullRoots, RootsOf, Represents, RootsStay, Moved;
    RootsGround(v, mem);
    AnchorCarried(mem, AnchorOf(v), mem2, fwd);
    ProtoCarried(v, mem, mem2, fwd);
    var cells, xs := mem[StackOf(mem, v.interpreter)].oops, mem[v.specialObjects].oops;
    forall k | 0 <= k < v.stackPointer ensures mem2[p].oops[k] == MoveOop(fwd, cells[k]) {
      assert MoveOops(fwd, cells)[k] == MoveOop(fwd, cells[k]);
    }
    assert MoveOops(fwd, xs)[SPECIAL_OOP_NIL] == MoveOop(fwd, xs[SPECIAL_OOP_NIL]);
  }

  /** The prototype of arrays is where its references lead, with its map. */
  lemma ProtoCarried(v: View, mem: Memory, mem2: Memory, fwd: map<int, int>)
    requires RootsStay(v, mem) && InBounds(v, mem) && CanGrow(mem, AnchorOf(v)) && Survived(v, mem, mem2, fwd)
    ensures IsUsed(mem2, v.specialObjects) && SPECIAL_OOP_ARRAY_PROTO < |mem2[v.specialObjects].oops|
    ensures var x := mem[v.specialObjects].oops[SPECIAL_OOP_ARRAY_PROTO].addr;
      && mem2[v.specialObjects].oops[SPECIAL_OOP_ARRAY_PROTO] == Ref(Forward(fwd, x)) && IsUsed(mem2, Forward(fwd, x))
      && mem2[Forward(fwd, x)].mapOop == Forward(fwd, mem[x].mapOop)
  {
    hide Live, FullRoots, RootsOf, RootsStay;
    RootsGround(v, mem);
    var xs := mem[v.specialObjects].oops;
    var x := xs[SPECIAL_OOP_ARRAY_PROTO].addr;
    assert xs[SPECIAL_OOP_ARRAY_PROTO] in xs && Points(mem[v.specialObjects], x);
    LiveClosed(mem, FullRoots(v, mem), v.specialObjects, x);
    assert Represented(mem, mem2, fwd, v.specialObjects) && Represented(mem, mem2, fwd, x);
    assert MoveOops(fwd, xs)[SPECIAL_OOP_ARRAY_PROTO] == Ref(Forward(fwd, x));
  }

  lemma StackNotItself(v: View, mem: Memory, mem2: Memory, p: int, size: nat, hash: nat, color: bool, fwd: map<int, int>)
    requires RootsStay(v, mem) && Grown(v, mem, mem2, p, size, hash, color, fwd)
    ensures p != v.interpreter
  {
    hide Live;
  }

  lemma UsableSays(h: Heap)
    requires Usable(h)
    ensures h.Valid() && OnlyOld(h) && CursorsOk(h) && h.markStack.Length > 0 && h.IsOld(h.interpreter)
    ensures h.memoryOld + h.memoryOldSize <= h.memoryYoung || h.memoryYoung + h.memoryYoungSize <= h.memoryOld
  {
  }

  lemma InOneSpace(h: Heap, x: int)
    requires h.Valid() && x in h.mem
    ensures h.IsYoung(x) <==> !h.IsOld(x)
  {
  }

  /** An old object that refers to a young one and is not remembered. */
  ghost predicate Unnoticed(h: Heap, x: int)
    reads h
  {
    h.IsOld(x) && IsUsed(h.mem, x) && RefersTo(h.mem[x], h.memoryYoung, h.memoryYoung + h.memoryYoungSize) && x !in h.remembered
  }

  lemma UnnoticedMissing(h: Heap, x: int)
    ensures Unnoticed(h, x) ==> !RememberedOk(h)
  {
  }
}

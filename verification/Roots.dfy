/** The start of a collection: no object in the collected space is marked, then the roots are. */
module Roots {
  import opened HeapModel
  import opened Marking

  ghost predicate Unmarked(mem: Memory, color: bool, a: int, b: int) {
    forall k | k in mem && a <= k < b :: !IsMarked(mem, color, k)
  }

  ghost predicate SameOutside(mem: Memory, mem': Memory, a: int, b: int) {
    forall k | !(a <= k < b) :: (k in mem <==> k in mem') && (k in mem ==> mem[k] == mem'[k])
  }

  /** heap_start_gc: marked objects become unmarked ones, and nothing is pending. */
  method StartGc(h: Heap)
    requires h.Valid() && h.markStack.Length > 0
    modifies h`markColor, h`markStackPosition
    ensures h.markColor == !old(h.markColor) && h.markStackPosition == 0
  {
    h.markColor := !h.markColor;
    h.markStackPosition := 0;
  }

  /** heap_unmark_all, for the space of this size at this address. */
  method UnmarkAll(h: Heap, memory: int, memorySize: int)
    requires Space(h.mem, memory, memory + memorySize)
    modifies h`mem
    ensures SameButMarks(old(h.mem), h.mem) && SameOutside(old(h.mem), h.mem, memory, memory + memorySize)
    ensures Unmarked(h.mem, h.markColor, memory, memory + memorySize)
  {
    hide SameButMarks, SameOutside, Unmarked, Tiled, Space;
    ghost var mem0, end := h.mem, memory + memorySize;
    SpaceBounds(mem0, memory, end);
    NothingFlipped(mem0, h.markColor, memory, end);
    var obj := memory;
    while obj < memory + memorySize
      invariant Tiled(mem0, memory, obj) && memory <= obj <= end && (obj < end ==> obj in mem0)
      invariant SameButMarks(mem0, h.mem) && SameOutside(mem0, h.mem, memory, end) && Unmarked(h.mem, h.markColor, memory, obj)
      decreases end - obj
    {
      BlockEnds(mem0, memory, end, obj);
      FlipOne(mem0, h.mem, h.markColor, memory, end, obj);
      if h.mem[obj].Used? {
        h.mem := h.mem[obj := h.mem[obj].(mark := !h.markColor)];
      }
      obj := obj + Words(h.mem[obj]);
    }
  }

  lemma NothingFlipped(mem: Memory, color: bool, a: int, b: int)
    ensures SameButMarks(mem, mem) && SameOutside(mem, mem, a, b) && Unmarked(mem, color, a, a)
  {
  }

  lemma FlipOne(mem0: Memory, mem: Memory, color: bool, a: int, b: int, obj: int)
    requires SameButMarks(mem0, mem) && SameOutside(mem0, mem, a, b) && Unmarked(mem, color, a, obj) && a <= obj < b && obj in mem0
    requires forall q | q in mem0 && obj < q < b :: obj + Words(mem0[obj]) <= q
    requires obj + Words(mem0[obj]) <= b
    ensures obj in mem && Words(mem[obj]) == Words(mem0[obj])
    ensures var mem' := if mem[obj].Used? then mem[obj := mem[obj].(mark := !color)] else mem;
      && SameButMarks(mem0, mem') && SameOutside(mem0, mem', a, b) && Unmarked(mem', color, a, obj + Words(mem0[obj]))
      && Words(mem'[obj]) == Words(mem0[obj])
  {
    assert SameButMark(mem0[obj], mem[obj]);
  }

  /** object_is_pinned, of an object that is not free. */
  predicate IsPinned(mem: Memory, x: int) {
    IsUsed(mem, x) && mem[x].pins > 0
  }

  ghost function PinnedIn(mem: Memory, a: int, b: int): set<int> {
    set x | x in mem && a <= x < b && IsPinned(mem, x)
  }

  /** The objects xs are marked in addition, and whatever got marked is pending. */
  twostate predicate MarkedAlso(h: Heap, xs: set<int>)
    reads h, h.markStack
    requires old(h.markStackPosition <= h.markStack.Length)
  {
    && h.Tracing() && SameButMarks(old(h.mem), h.mem) && h.NewlyPending()
    && Marked(h.mem, h.markColor) == old(Marked(h.mem, h.markColor)) + xs
  }

  /** heap_mark_pinned_young and heap_mark_pinned_old, for the space of this size at this address. */
  method MarkPinned(h: Heap, memory: int, memorySize: int)
    requires h.Tracing() && Space(h.mem, memory, memory + memorySize)
    modifies h`mem, h`pushed, h`markStack, h`markStackPosition, h.markStack
    ensures MarkedAlso(h, old(PinnedIn(h.mem, memory, memory + memorySize)))
    ensures forall x :: x in Marked(h.mem, h.markColor) <==>
              x in old(Marked(h.mem, h.markColor))
              || (memory <= x < memory + memorySize && x in old(h.mem) && old(h.mem)[x].Used? && old(h.mem)[x].pins > 0)
    ensures h.markStack == old(h.markStack) || fresh(h.markStack)
  {
    hide Layout, RootsIn, Log, Marked, Distinct, SameButMarks, Space, Tiled, PinnedIn, Words, Heap.Valid;
    PinnedAre(h.mem, memory, memory + memorySize);
    ghost var mem0, end := h.mem, memory + memorySize;
    SpaceBounds(mem0, memory, end);
    assert PinnedIn(mem0, memory, memory) == {} by { NonePinned(mem0, memory); }
    var obj := memory;
    SameMarksRefl(mem0);
    while obj < memory + memorySize
      invariant Tiled(mem0, memory, obj) && memory <= obj <= end && (obj < end ==> obj in mem0)
      invariant MarkedAlso(h, PinnedIn(mem0, memory, obj))
      invariant h.markStack == old(h.markStack) || fresh(h.markStack)
      decreases end - obj
    {
      BlockEnds(mem0, memory, end, obj);
      SameHeader(mem0, h.mem, obj);
      var next := obj + Words(h.mem[obj]);
      PinnedMore(mem0, memory, obj, next);
      if IsPinned(h.mem, obj) {
        ghost var before := h.mem;
        h.Mark(obj);
        SameButMarksTrans(mem0, before, h.mem);
      }
      obj := next;
    }
  }

  lemma PinnedAre(mem: Memory, a: int, b: int)
    ensures forall x :: x in PinnedIn(mem, a, b) <==> a <= x < b && x in mem && mem[x].Used? && mem[x].pins > 0
  {
  }

  lemma NonePinned(mem: Memory, a: int)
    ensures PinnedIn(mem, a, a) == {}
  {
  }

  lemma SameHeader(mem: Memory, mem': Memory, k: int)
    requires SameButMarks(mem, mem') && k in mem
    ensures k in mem' && Words(mem'[k]) == Words(mem[k]) && (IsPinned(mem', k) <==> IsPinned(mem, k))
  {
    assert SameButMark(mem[k], mem'[k]);
  }

  lemma SpaceBounds(mem: Memory, a: int, b: int)
    requires Space(mem, a, b)
    ensures a <= b && Tiled(mem, a, a) && Tiled(mem, a, b) && (a < b ==> a in mem)
  {
  }

  lemma PinnedMore(mem: Memory, a: int, obj: int, next: int)
    requires obj in mem && a <= obj < next && forall q | q in mem && obj < q < next :: false
    ensures PinnedIn(mem, a, next) == PinnedIn(mem, a, obj) + if IsPinned(mem, obj) then {obj} else {}
  {
  }

  /** What heap_mark_specials and heap_mark_interpreter_stack mark: old objects only when asked to. */
  ghost function RootsAmong(xs: seq<Oop>, markOld: bool, oldStart: int, oldEnd: int): set<int> {
    set x | x in RefsIn(xs) && (markOld || !(oldStart <= x < oldEnd))
  }

  lemma NoRoots(xs: seq<Oop>, markOld: bool, oldStart: int, oldEnd: int)
    ensures RootsAmong(xs[..0], markOld, oldStart, oldEnd) == {}
  {
  }

  lemma RootsMore(xs: seq<Oop>, o: Oop, markOld: bool, oldStart: int, oldEnd: int)
    ensures RootsAmong(xs + [o], markOld, oldStart, oldEnd) == RootsAmong(xs, markOld, oldStart, oldEnd) + RootOf(o, markOld, oldStart, oldEnd)
  {
    RefsMore(xs, o);
  }

  ghost function RootOf(o: Oop, markOld: bool, oldStart: int, oldEnd: int): set<int> {
    set x | x in Target(o) && (markOld || !(oldStart <= x < oldEnd))
  }

  lemma RootAmong(o: Oop, markOld: bool, oldStart: int, oldEnd: int)
    ensures RootOf(o, markOld, oldStart, oldEnd) == if o.Ref? && (markOld || !(oldStart <= o.addr < oldEnd)) then Target(o) else {}
  {
  }

  /** The first elements of an array, n of them. */
  method MarkElements(h: Heap, a: int, n: nat, markOld: bool)
    requires h.Tracing() && IsUsed(h.mem, a) && n <= |h.mem[a].oops|
    modifies h`mem, h`pushed, h`markStack, h`markStackPosition, h.markStack
    ensures MarkedAlso(h, old(RootsAmong(h.mem[a].oops[..n], markOld, h.memoryOld, h.memoryOld + h.memoryOldSize)))
    ensures h.markStack == old(h.markStack) || fresh(h.markStack)
  {
    hide Layout, RootsIn, Log, Marked, Distinct, SameButMarks, RootsAmong, Elements, Target, RefsIn, RootOf;
    ghost var mem0, xs := h.mem, h.mem[a].oops;
    ghost var marked, pending := Marked(h.mem, h.markColor), h.PendingSet();
    ghost var oldStart, oldEnd := h.memoryOld, h.memoryOld + h.memoryOldSize;
    FieldsSound(mem0, oldStart, oldEnd, h.memoryYoung, h.memoryYoung + h.memoryYoungSize, a);
    SameMarksRefl(mem0);
    assert RootsAmong(xs[..0], markOld, oldStart, oldEnd) == {} by { NoRoots(xs, markOld, oldStart, oldEnd); }
    var i := 0;
    while i < n
      invariant 0 <= i <= n && IsUsed(h.mem, a) && h.mem[a].oops == xs
      invariant h.Tracing() && SameButMarks(mem0, h.mem)
      invariant Marked(h.mem, h.markColor) == marked + RootsAmong(xs[..i], markOld, oldStart, oldEnd)
      invariant h.PendingSet() == pending + (Marked(h.mem, h.markColor) - marked)
      invariant h.markStack == old(h.markStack) || fresh(h.markStack)
    {
      assert xs[..i + 1] == xs[..i] + [xs[i]];
      RootsMore(xs[..i], xs[i], markOld, oldStart, oldEnd);
      ghost var before, marked1, pending1 := h.mem, Marked(h.mem, h.markColor), h.PendingSet();
      TargetUsed(mem0, before, xs, i);
      var obj := h.mem[a].oops[i];
      RootAmong(obj, markOld, oldStart, oldEnd);
      if obj.Ref? && (markOld || !h.IsOld(obj.addr)) {
        h.MarkOop(obj);
        SameButMarksTrans(mem0, before, h.mem);
        SameBlock(before, h.mem, a);
      }
      PendingMore(marked, pending, RootsAmong(xs[..i], markOld, oldStart, oldEnd), marked1, pending1, RootOf(obj, markOld, oldStart, oldEnd),
                  Marked(h.mem, h.markColor), h.PendingSet());
      i := i + 1;
    }
  }

  /** Where the spaces are, and what tracing starts from. */
  datatype View = View(oldStart: int, oldEnd: int, youngStart: int, youngEnd: int,
                       specialObjects: int, interpreter: int, stackPointer: nat)

  ghost function ViewOf(h: Heap): View
    reads h
  {
    View(h.memoryOld, h.memoryOld + h.memoryOldSize, h.memoryYoung, h.memoryYoung + h.memoryYoungSize,
         h.specialObjects, h.interpreter, h.stackPointer)
  }

  ghost predicate HasRoots(v: View, mem: Memory) {
    RootsIn(mem, v.specialObjects, v.interpreter, v.stackPointer)
  }

  ghost function SpecialRoots(v: View, mem: Memory, markOld: bool): set<int>
    requires HasRoots(v, mem)
  {
    RootsAmong(mem[v.specialObjects].oops, markOld, v.oldStart, v.oldEnd)
  }

  ghost function StackRoots(v: View, mem: Memory, markOld: bool): set<int>
    requires HasRoots(v, mem)
  {
    RootsAmong(mem[StackOf(mem, v.interpreter)].oops[..v.stackPointer], markOld, v.oldStart, v.oldEnd)
  }

  /** heap_mark_specials. */
  method MarkSpecials(h: Heap, markOld: bool)
    requires h.Tracing()
    modifies h`mem, h`pushed, h`markStack, h`markStackPosition, h.markStack
    ensures MarkedAlso(h, old(SpecialRoots(ViewOf(h), h.mem, markOld)))
    ensures h.markStack == old(h.markStack) || fresh(h.markStack)
  {
    hide Layout, Log, Marked, Distinct, SameButMarks;
    ghost var xs := h.mem[h.specialObjects].oops;
    assert xs[..|xs|] == xs;
    MarkElements(h, h.specialObjects, |h.mem[h.specialObjects].oops|, markOld);
  }

  /** heap_mark_interpreter_stack. */
  method MarkInterpreterStack(h: Heap, markOld: bool)
    requires h.Tracing()
    modifies h`mem, h`pushed, h`markStack, h`markStackPosition, h.markStack
    ensures MarkedAlso(h, old(StackRoots(ViewOf(h), h.mem, markOld)))
    ensures h.markStack == old(h.markStack) || fresh(h.markStack)
  {
    hide Layout, Log, Marked, Distinct, SameButMarks;
    MarkElements(h, StackOf(h.mem, h.interpreter), h.stackPointer, markOld);
  }
}

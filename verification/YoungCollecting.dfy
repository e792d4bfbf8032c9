/** heap_gc and the write barrier: what a young collection frees could not be reached, and what it keeps does not move. */
module YoungCollecting {
  import opened Wrappers
  import opened HeapModel
  import opened Marking
  import opened Roots
  import opened Sweeping
  import opened Allocating
  import opened Forwarding
  import opened Tenuring
  import opened Collecting

  // ---------- the write barrier ----------

  /** heap_store_into. */
  method StoreInto(h: Heap, src: int, dest: Oop)
    modifies h`remembered
    ensures h.remembered == old(h.remembered) + if dest.Ref? && h.IsYoung(dest.addr) && h.IsOld(src) then {src} else {}
  {
    if dest.Ref? && h.IsYoung(dest.addr) && h.IsOld(src) {
      RememberOldObject(h, src);
    }
  }

  /**
   * object_slot_value_at_offset_put and object_array_set_element: a store behind the barrier keeps the remembered set
   * right, and whatever it misses, only old objects in it.
   */
  method StoreWord(h: Heap, src: int, i: nat, dest: Oop)
    requires h.Valid() && OnlyOld(h) && IsUsed(h.mem, src) && i < |h.mem[src].oops|
    requires (dest.Ref? ==> IsUsed(h.mem, dest.addr)) && KeepsStack(h.mem, h.interpreter, h.stackPointer, src, i, dest)
    modifies h`mem, h`remembered
    ensures h.Valid() && OnlyOld(h) && (old(RememberedOk(h)) ==> RememberedOk(h))
    ensures h.mem == old(h.mem)[src := old(h.mem)[src].(oops := old(h.mem)[src].oops[i := dest])]
  {
    hide Layout, RootsIn, RememberedIn;
    ghost var mem0, v, remembered := h.mem, ViewOf(h), h.remembered;
    StoreInto(h, src, dest);
    h.mem := h.mem[src := h.mem[src].(oops := h.mem[src].oops[i := dest])];
    StoredLayout(mem0, v.oldStart, v.oldEnd, v.youngStart, v.youngEnd, src, i, dest);
    StoredRoots(mem0, h.specialObjects, h.interpreter, h.stackPointer, src, i, dest);
    if RememberedIn(v, mem0, remembered) {
      StoredRemembered(v, mem0, src, i, dest, remembered, h.remembered);
    }
  }

  /**
   * A store whose value the barrier is not shown: interpreter_grow_stack and prim_initializeThreadOn for the new stack,
   * and the interpreter's stores of variables, which show the barrier the stack. A right remembered set stays right
   * exactly when the object was remembered already, or no barrier was needed.
   */
  method StoreUnseen(h: Heap, src: int, i: nat, dest: Oop)
    requires h.Valid() && OnlyOld(h) && IsUsed(h.mem, src) && i < |h.mem[src].oops|
    requires (dest.Ref? ==> IsUsed(h.mem, dest.addr)) && KeepsStack(h.mem, h.interpreter, h.stackPointer, src, i, dest)
    modifies h`mem
    ensures h.Valid() && OnlyOld(h) && h.mem == old(h.mem)[src := old(h.mem)[src].(oops := old(h.mem)[src].oops[i := dest])]
    ensures old(RememberedOk(h)) ==> (RememberedOk(h) <==> (dest.Ref? && h.IsYoung(dest.addr) && h.IsOld(src) ==> src in h.remembered))
  {
    hide Layout, RootsIn, RememberedIn;
    ghost var mem0, v := h.mem, ViewOf(h);
    h.mem := h.mem[src := h.mem[src].(oops := h.mem[src].oops[i := dest])];
    StoredLayout(mem0, v.oldStart, v.oldEnd, v.youngStart, v.youngEnd, src, i, dest);
    StoredRoots(mem0, h.specialObjects, h.interpreter, h.stackPointer, src, i, dest);
    if RememberedIn(v, mem0, h.remembered) {
      StoredUnseen(v, mem0, src, i, dest, h.remembered);
    }
  }

  lemma StoredUnseen(v: View, mem: Memory, src: int, i: nat, dest: Oop, remembered: set<int>)
    requires IsUsed(mem, src) && i < |mem[src].oops| && RememberedIn(v, mem, remembered)
    ensures RememberedIn(v, mem[src := mem[src].(oops := mem[src].oops[i := dest])], remembered)
       <==> (dest.Ref? && v.youngStart <= dest.addr < v.youngEnd && v.oldStart <= src < v.oldEnd ==> src in remembered)
  {
    var mem' := mem[src := mem[src].(oops := mem[src].oops[i := dest])];
    if dest.Ref? && v.youngStart <= dest.addr < v.youngEnd && v.oldStart <= src < v.oldEnd {
      assert mem'[src].oops[i] == dest;
      assert Points(mem'[src], dest.addr);
      assert RefersTo(mem'[src], v.youngStart, v.youngEnd);
      if src in remembered {
        StoredRemembered(v, mem, src, i, dest, remembered, remembered + {src});
        assert remembered + {src} == remembered;
      }
    } else {
      StoredRemembered(v, mem, src, i, dest, remembered, remembered);
    }
  }

  /** An old interpreter with an old stack, and a young array that is to be its new stack. */
  function BeforeGrowing(): Memory {
    map[0 := Used(0, false, 0, OopArray, 0, [Ref(5)], []), 5 := Used(0, false, 0, PlainObject, 0, [Ref(10)], []),
        10 := Used(0, false, 0, OopArray, 0, [], []), 20 := Used(0, false, 0, OopArray, 0, [], [])]
  }

  function AfterGrowing(): Memory {
    BeforeGrowing()[5 := BeforeGrowing()[5].(oops := [Ref(20)])]
  }

  const GROWING: View := View(0, 14, 20, 24, 0, 5, 0)

  /** With its new stack the interpreter should be remembered; when it is not, a young collection does not find the stack. */
  lemma GrownStackIsLost()
    ensures var v, mem, mem' := GROWING, BeforeGrowing(), AfterGrowing();
      && Layout(mem, 0, 14, 20, 24) && Layout(mem', 0, 14, 20, 24) && HasRoots(v, mem) && HasRoots(v, mem')
      && RememberedIn(v, mem, {}) && !RememberedIn(v, mem', {})
      && Live(mem', AllRoots(v, mem'), 20) && !Reachable(mem', YoungKeys(v, mem'), YoungRoots(v, mem', {}), 20)
  {
    hide *;
    GrownLayout(BeforeGrowing());
    GrownLayout(AfterGrowing());
    GrownRoots();
    GrownRemembered();
    GrownLive();
    GrownUnseen();
  }

  lemma GrownRoots()
    ensures HasRoots(GROWING, BeforeGrowing()) && HasRoots(GROWING, AfterGrowing())
  {
  }

  lemma GrownRemembered()
    ensures RememberedIn(GROWING, BeforeGrowing(), {}) && !RememberedIn(GROWING, AfterGrowing(), {})
  {
    var mem' := AfterGrowing();
    assert mem'[5].oops[0] == Ref(20) && Points(mem'[5], 20) && RefersTo(mem'[5], 20, 24);
  }

  lemma GrownLive()
    ensures HasRoots(GROWING, AfterGrowing()) && Live(AfterGrowing(), AllRoots(GROWING, AfterGrowing()), 20)
  {
    var v, mem' := GROWING, AfterGrowing();
    assert mem'[5].oops[0] == Ref(20) && Points(mem'[5], 20);
    AllLive(v, mem', 5);
    LiveClosed(mem', AllRoots(v, mem'), 5, 20);
  }

  lemma GrownUnseen()
    ensures var v, mem' := GROWING, AfterGrowing();
      HasRoots(v, mem') && !Reachable(mem', YoungKeys(v, mem'), YoungRoots(v, mem', {}), 20)
  {
    var v, mem' := GROWING, AfterGrowing();
    assert mem'[0].oops[0] == Ref(5);
    assert RefsIn(mem'[0].oops) == {5} && RefsIn(mem'[20].oops[..0]) == {};
    assert YoungRoots(v, mem', {}) == {};
  }

  lemma GrownLayout(mem: Memory)
    requires mem == BeforeGrowing() || mem == AfterGrowing()
    ensures Layout(mem, 0, 14, 20, 24)
  {
    assert Tiled(mem, 14, 14) && Tiled(mem, 10, 14) && Tiled(mem, 5, 14) && Tiled(mem, 0, 14);
    assert Tiled(mem, 10, 10) && Tiled(mem, 5, 10) && Tiled(mem, 0, 10);
    assert Tiled(mem, 5, 5) && Tiled(mem, 0, 5) && Tiled(mem, 0, 0);
    assert Tiled(mem, 24, 24) && Tiled(mem, 20, 24) && Tiled(mem, 20, 20);
  }

  lemma StoredLayout(mem: Memory, a: int, b: int, c: int, d: int, src: int, i: nat, dest: Oop)
    requires Layout(mem, a, b, c, d) && IsUsed(mem, src) && i < |mem[src].oops| && (dest.Ref? ==> IsUsed(mem, dest.addr))
    ensures Layout(mem[src := mem[src].(oops := mem[src].oops[i := dest])], a, b, c, d)
  {
    StoredSound(mem, src, i, dest);
    hide Tiled, Space, Sound;
    var mem' := mem[src := mem[src].(oops := mem[src].oops[i := dest])];
    SpaceSame(mem, mem', a, b);
    SpaceSame(mem, mem', c, d);
  }

  /** A new stack for the interpreter is an array that reaches to the stack pointer. */
  predicate KeepsStack(mem: Memory, interpreter: int, stackPointer: nat, src: int, i: nat, dest: Oop) {
    src == interpreter && i == STACK_SLOT ==> dest.Ref? && IsUsed(mem, dest.addr) && stackPointer <= |mem[dest.addr].oops|
  }

  lemma StoredRoots(mem: Memory, specialObjects: int, interpreter: int, stackPointer: nat, src: int, i: nat, dest: Oop)
    requires RootsIn(mem, specialObjects, interpreter, stackPointer) && IsUsed(mem, src) && i < |mem[src].oops|
    requires KeepsStack(mem, interpreter, stackPointer, src, i, dest)
    ensures RootsIn(mem[src := mem[src].(oops := mem[src].oops[i := dest])], specialObjects, interpreter, stackPointer)
  {
  }

  lemma StoredPoints(b: Block, i: nat, dest: Oop, x: int)
    requires b.Used? && i < |b.oops|
    ensures Points(b.(oops := b.oops[i := dest]), x) ==> Points(b, x) || dest == Ref(x)
  {
  }

  lemma StoredSound(mem: Memory, src: int, i: nat, dest: Oop)
    requires Sound(mem) && IsUsed(mem, src) && i < |mem[src].oops| && (dest.Ref? ==> IsUsed(mem, dest.addr))
    ensures Sound(mem[src := mem[src].(oops := mem[src].oops[i := dest])])
  {
    var mem' := mem[src := mem[src].(oops := mem[src].oops[i := dest])];
    forall k, x | k in mem' && Points(mem'[k], x) ensures IsUsed(mem', x) {
      if k == src {
        StoredPoints(mem[src], i, dest, x);
      }
      assert IsUsed(mem, x);
    }
  }

  lemma StoredRemembered(v: View, mem: Memory, src: int, i: nat, dest: Oop, remembered: set<int>, remembered': set<int>)
    requires IsUsed(mem, src) && i < |mem[src].oops| && RememberedIn(v, mem, remembered)
    requires remembered' == remembered + if dest.Ref? && v.youngStart <= dest.addr < v.youngEnd && v.oldStart <= src < v.oldEnd then {src} else {}
    ensures RememberedIn(v, mem[src := mem[src].(oops := mem[src].oops[i := dest])], remembered')
  {
    var mem' := mem[src := mem[src].(oops := mem[src].oops[i := dest])];
    forall k | v.oldStart <= k < v.oldEnd && IsUsed(mem', k) && RefersTo(mem'[k], v.youngStart, v.youngEnd)
      ensures k in remembered'
    {
      var x :| Points(mem'[k], x) && v.youngStart <= x < v.youngEnd;
      if k == src {
        StoredPoints(mem[src], i, dest, x);
        if Points(mem[src], x) {
          assert RefersTo(mem[src], v.youngStart, v.youngEnd);
        }
      }
    }
  }

  // ---------- roots of a young collection ----------

  /** The young objects among those a block refers to. */
  ghost function YoungTargets(b: Block, a: int, end: int): set<int> {
    set x | x in Targets(b) && a <= x < end
  }

  /** The young objects that the remembered ones refer to. */
  ghost function RememberedRoots(v: View, mem: Memory, remembered: set<int>): set<int> {
    set o, x | o in remembered && o in mem && x in YoungTargets(mem[o], v.youngStart, v.youngEnd) :: x
  }

  /** The young object a word refers to, if it does. */
  ghost function YoungOf(o: Oop, a: int, end: int): set<int> {
    set x | x in Target(o) && a <= x < end
  }

  /** One word of a remembered object: marks the young object it refers to. */
  method MarkIfYoung(h: Heap, val: Oop) returns (found: bool)
    requires h.Tracing() && (val.Ref? ==> IsUsed(h.mem, val.addr))
    modifies h`mem, h`pushed, h`markStack, h`markStackPosition, h.markStack
    ensures MarkedAlso(h, YoungOf(val, h.memoryYoung, h.memoryYoung + h.memoryYoungSize))
    ensures h.markStack == old(h.markStack) || fresh(h.markStack)
    ensures found <==> YoungOf(val, h.memoryYoung, h.memoryYoung + h.memoryYoungSize) != {}
  {
    hide Layout, RootsIn, SameButMarks, Log, Marked;
    SameMarksRefl(h.mem);
    found := val.Ref? && h.IsYoung(val.addr);
    if found {
      h.MarkOop(val);
      assert YoungOf(val, h.memoryYoung, h.memoryYoung + h.memoryYoungSize) == Target(val) == {val.addr};
    } else {
      assert YoungOf(val, h.memoryYoung, h.memoryYoung + h.memoryYoungSize) == {};
    }
  }

  ghost function YoungRefs(xs: seq<Oop>, a: int, end: int): set<int> {
    set x | x in RefsIn(xs) && a <= x < end
  }

  lemma YoungRefsMore(xs: seq<Oop>, o: Oop, a: int, end: int)
    ensures YoungRefs(xs + [o], a, end) == YoungRefs(xs, a, end) + YoungOf(o, a, end)
  {
    RefsMore(xs, o);
  }

  lemma PrefixMore(xs: seq<Oop>, i: nat, lo: int, hi: int)
    requires i < |xs|
    ensures YoungRefs(xs[..i + 1], lo, hi) == YoungRefs(xs[..i], lo, hi) + YoungOf(xs[i], lo, hi)
    ensures YoungRefs(xs[..i + 1], lo, hi) != {} <==> YoungRefs(xs[..i], lo, hi) != {} || YoungOf(xs[i], lo, hi) != {}
  {
    hide YoungRefs, YoungOf;
    assert xs[..i + 1] == xs[..i] + [xs[i]];
    YoungRefsMore(xs[..i], xs[i], lo, hi);
  }

  /** The slots and elements of a remembered object. */
  method MarkYoungWords(h: Heap, o: int) returns (found: bool)
    requires h.Tracing() && IsUsed(h.mem, o)
    modifies h`mem, h`pushed, h`markStack, h`markStackPosition, h.markStack
    ensures MarkedAlso(h, old(YoungRefs(h.mem[o].oops, h.memoryYoung, h.memoryYoung + h.memoryYoungSize)))
    ensures h.markStack == old(h.markStack) || fresh(h.markStack)
    ensures found <==> old(YoungRefs(h.mem[o].oops, h.memoryYoung, h.memoryYoung + h.memoryYoungSize)) != {}
  {
    hide Layout, RootsIn, SameButMarks, Log, Marked, Targets, RefersTo, YoungRefs, YoungOf;
    ghost var mem0, xs, lo, hi := h.mem, h.mem[o].oops, h.memoryYoung, h.memoryYoung + h.memoryYoungSize;
    ghost var marked, pending := Marked(h.mem, h.markColor), h.PendingSet();
    FieldsSound(mem0, h.memoryOld, h.memoryOld + h.memoryOldSize, lo, hi, o);
    NoYoungRefs(xs, lo, hi);
    SameMarksRefl(mem0);
    found := false;
    var i := 0;
    while i < |h.mem[o].oops|
      invariant IsUsed(h.mem, o) && h.mem[o].oops == xs && 0 <= i <= |xs|
      invariant h.Tracing() && SameButMarks(mem0, h.mem) && (h.markStack == old(h.markStack) || fresh(h.markStack))
      invariant Marked(h.mem, h.markColor) == marked + YoungRefs(xs[..i], lo, hi)
      invariant h.PendingSet() == pending + (Marked(h.mem, h.markColor) - marked)
      invariant found <==> YoungRefs(xs[..i], lo, hi) != {}
    {
      ghost var before := h.mem;
      PrefixMore(xs, i, lo, hi);
      TargetUsed(mem0, before, xs, i);
      ghost var marked1, pending1 := Marked(h.mem, h.markColor), h.PendingSet();
      ghost var targets := YoungOf(xs[i], lo, hi);
      var more := MarkIfYoung(h, h.mem[o].oops[i]);
      PendingMore(marked, pending, YoungRefs(xs[..i], lo, hi), marked1, pending1, targets, Marked(h.mem, h.markColor), h.PendingSet());
      found := found || more;
      SameButMarksTrans(mem0, before, h.mem);
      SameBlock(before, h.mem, o);
      i := i + 1;
    }
    assert xs[..|xs|] == xs;
  }

  lemma NoYoungRefs(xs: seq<Oop>, lo: int, hi: int)
    ensures YoungRefs(xs[..0], lo, hi) == {}
  {
  }

  /** The body of heap_mark_remembered for one old object. */
  method MarkRememberedObject(h: Heap, o: int) returns (foundSomething: bool)
    requires h.Tracing() && IsUsed(h.mem, o)
    modifies h`mem, h`pushed, h`markStack, h`markStackPosition, h.markStack
    ensures MarkedAlso(h, old(YoungTargets(h.mem[o], h.memoryYoung, h.memoryYoung + h.memoryYoungSize)))
    ensures h.markStack == old(h.markStack) || fresh(h.markStack)
    ensures foundSomething <==> RefersTo(old(h.mem)[o], h.memoryYoung, h.memoryYoung + h.memoryYoungSize)
  {
    hide Layout, RootsIn, SameButMarks, Log, Marked, Targets, RefersTo, YoungRefs, YoungOf;
    ghost var mem0, b, lo, hi := h.mem, h.mem[o], h.memoryYoung, h.memoryYoung + h.memoryYoungSize;
    FieldsSound(mem0, h.memoryOld, h.memoryOld + h.memoryOldSize, lo, hi, o);
    var foundMap := MarkIfYoung(h, Ref(h.mem[o].mapOop));
    ghost var before := h.mem;
    SameBlock(mem0, before, o);
    var foundWord := MarkYoungWords(h, o);
    SameButMarksTrans(mem0, before, h.mem);
    YoungTargetsAre(b, lo, hi);
    foundSomething := foundMap || foundWord;
  }

  lemma YoungTargetsAre(b: Block, lo: int, hi: int)
    requires b.Used?
    ensures YoungTargets(b, lo, hi) == YoungOf(Ref(b.mapOop), lo, hi) + YoungRefs(b.oops, lo, hi)
    ensures YoungTargets(b, lo, hi) != {} <==> RefersTo(b, lo, hi)
  {
    forall x ensures x in Targets(b) <==> Points(b, x) {
      TargetsPoint(b, x);
    }
    if RefersTo(b, lo, hi) {
      var x :| Points(b, x) && lo <= x < hi;
      assert x in YoungTargets(b, lo, hi);
    }
    if YoungTargets(b, lo, hi) != {} {
      var x :| x in YoungTargets(b, lo, hi);
      assert Points(b, x);
    }
  }

  lemma SameTargetsOf(mem: Memory, mem': Memory, o: int)
    requires SameButMarks(mem, mem') && IsUsed(mem, o)
    ensures IsUsed(mem', o) && Targets(mem'[o]) == Targets(mem[o])
    ensures forall a, b :: RefersTo(mem'[o], a, b) <==> RefersTo(mem[o], a, b)
  {
    assert SameButMark(mem[o], mem'[o]);
    forall x ensures Points(mem'[o], x) <==> Points(mem[o], x) {
      PointsSame(mem[o], mem'[o], x);
    }
  }

  /** The remembered objects that do refer to young ones. */
  ghost function StillNeeded(v: View, mem: Memory, remembered: set<int>): set<int> {
    set o | o in remembered && IsUsed(mem, o) && RefersTo(mem[o], v.youngStart, v.youngEnd)
  }

  /** A remembered object stays remembered exactly while its map or one of its words refers to a young object. */
  lemma StillNeededExactly(v: View, mem: Memory, remembered: set<int>, x: int)
    ensures x in StillNeeded(v, mem, remembered) <==>
              && x in remembered && x in mem && mem[x].Used?
              && (v.youngStart <= mem[x].mapOop < v.youngEnd
                  || exists i :: 0 <= i < |mem[x].oops| && mem[x].oops[i].Ref? && v.youngStart <= mem[x].oops[i].addr < v.youngEnd)
  {
    if x in mem && mem[x].Used? {
      var b := mem[x];
      if i :| 0 <= i < |b.oops| && b.oops[i].Ref? && v.youngStart <= b.oops[i].addr < v.youngEnd {
        assert Points(b, b.oops[i].addr);
      }
      assert Points(b, b.mapOop);
      if y :| Points(b, y) && v.youngStart <= y < v.youngEnd && y != b.mapOop {
        var i :| 0 <= i < |b.oops| && b.oops[i] == Ref(y);
      }
    }
  }

  /** One more remembered object; it is to be forgotten if it keeps nothing alive. */
  method MarkNext(h: Heap, o: int, ghost v: View, ghost mem0: Memory, ghost done: set<int>, ghost marked: set<int>, ghost pending: set<int>)
    returns (isBad: bool)
    requires h.Tracing() && v == ViewOf(h) && SameButMarks(mem0, h.mem) && h.IsOld(o) && IsUsed(mem0, o)
    requires Marked(h.mem, h.markColor) == marked + RememberedRoots(v, mem0, done)
    requires h.PendingSet() == pending + (Marked(h.mem, h.markColor) - marked)
    modifies h`mem, h`pushed, h`markStack, h`markStackPosition, h.markStack
    ensures h.Tracing() && SameButMarks(mem0, h.mem) && (h.markStack == old(h.markStack) || fresh(h.markStack))
    ensures Marked(h.mem, h.markColor) == marked + RememberedRoots(v, mem0, done + {o})
    ensures h.PendingSet() == pending + (Marked(h.mem, h.markColor) - marked)
    ensures StillNeeded(v, mem0, done + {o}) == StillNeeded(v, mem0, done) + if isBad then {} else {o}
  {
    hide Layout, RootsIn, SameButMarks, Log, Marked, Targets, RefersTo, YoungTargets, RememberedRoots, StillNeeded;
    ghost var before := h.mem;
    RememberedOne(h, v, mem0, done, o);
    ghost var marked1, pending1 := Marked(h.mem, h.markColor), h.PendingSet();
    ghost var more := YoungTargets(h.mem[o], v.youngStart, v.youngEnd);
    var foundSomething := MarkRememberedObject(h, o);
    SameButMarksTrans(mem0, before, h.mem);
    PendingMore(marked, pending, RememberedRoots(v, mem0, done), marked1, pending1, more, Marked(h.mem, h.markColor), h.PendingSet());
    isBad := !foundSomething || h.IsYoung(o);
  }

  /** heap_mark_remembered: marks what the remembered objects keep alive, and forgets those that keep nothing. */
  method MarkRemembered(h: Heap)
    requires h.Tracing() && forall o | o in h.remembered :: IsUsed(h.mem, o) && h.IsOld(o)
    modifies h`mem, h`pushed, h`markStack, h`markStackPosition, h`remembered, h.markStack
    ensures MarkedAlso(h, old(RememberedRoots(ViewOf(h), h.mem, h.remembered)))
    ensures h.markStack == old(h.markStack) || fresh(h.markStack)
    ensures h.remembered == old(StillNeeded(ViewOf(h), h.mem, h.remembered))
  {
    hide Layout, RootsIn, SameButMarks, Log, Marked, Targets, RefersTo, YoungTargets, RememberedRoots, StillNeeded, Sorted;
    ghost var mem0, v := h.mem, ViewOf(h);
    ghost var marked, pending := Marked(h.mem, h.markColor), h.PendingSet();
    ghost var done: set<int> := {};
    NoneSorted(v, mem0, h.remembered);
    var todo, bad: set<int> := h.remembered, {};
    NoneRemembered(v, mem0);
    SameMarksRefl(mem0);
    while todo != {}
      invariant todo <= h.remembered == old(h.remembered) && Sorted(v, mem0, h.remembered, done, todo, bad)
      invariant h.Tracing() && SameButMarks(mem0, h.mem) && (h.markStack == old(h.markStack) || fresh(h.markStack))
      invariant Marked(h.mem, h.markColor) == marked + RememberedRoots(v, mem0, done)
      invariant h.PendingSet() == pending + (Marked(h.mem, h.markColor) - marked)
    {
      NotEmpty(todo);
      var o :| o in todo;
      var isBad := MarkNext(h, o, v, mem0, done, marked, pending);
      SortedOne(v, mem0, h.remembered, done, todo, bad, o, !isBad);
      if isBad {
        bad := bad + {o};
      }
      done := done + {o};
      todo := todo - {o};
    }
    AllSorted(v, mem0, h.remembered, done, bad);
    h.remembered := h.remembered - bad;
  }

  /** Of all remembered objects the done ones have been looked at, and those among them that refer to nothing young are bad. */
  ghost predicate Sorted(v: View, mem: Memory, all: set<int>, done: set<int>, todo: set<int>, bad: set<int>) {
    done !! todo && done + todo == all && bad <= done && StillNeeded(v, mem, done) == done - bad
  }

  lemma NoneSorted(v: View, mem: Memory, all: set<int>)
    ensures Sorted(v, mem, all, {}, all, {})
  {
  }

  lemma SortedOne(v: View, mem: Memory, all: set<int>, done: set<int>, todo: set<int>, bad: set<int>, o: int, needed: bool)
    requires Sorted(v, mem, all, done, todo, bad) && o in todo
    requires StillNeeded(v, mem, done + {o}) == StillNeeded(v, mem, done) + if needed then {o} else {}
    ensures Sorted(v, mem, all, done + {o}, todo - {o}, if needed then bad else bad + {o})
  {
    hide StillNeeded;
  }

  lemma AllSorted(v: View, mem: Memory, all: set<int>, done: set<int>, bad: set<int>)
    requires Sorted(v, mem, all, done, {}, bad)
    ensures done == all && StillNeeded(v, mem, all) == all - bad
  {
    hide StillNeeded;
    assert done == all;
  }

  lemma RememberedOne(h: Heap, v: View, mem0: Memory, done: set<int>, o: int)
    requires h.Valid() && h.IsOld(o) && SameButMarks(mem0, h.mem) && IsUsed(mem0, o)
    ensures !h.IsYoung(o) && IsUsed(h.mem, o)
    ensures RememberedRoots(v, mem0, done + {o}) == RememberedRoots(v, mem0, done) + YoungTargets(h.mem[o], v.youngStart, v.youngEnd)
    ensures StillNeeded(v, mem0, done + {o})
         == StillNeeded(v, mem0, done) + if RefersTo(h.mem[o], v.youngStart, v.youngEnd) then {o} else {}
  {
    hide Targets, RefersTo, RememberedRoots, StillNeeded, YoungTargets;
    SameTargetsOf(mem0, h.mem, o);
    SameYoungTargets(mem0[o], h.mem[o], v.youngStart, v.youngEnd);
    OneMore(v, mem0, done, o);
  }

  lemma NoneRemembered(v: View, mem: Memory)
    ensures RememberedRoots(v, mem, {}) == {} && StillNeeded(v, mem, {}) == {}
  {
  }

  lemma SameYoungTargets(b: Block, b': Block, lo: int, hi: int)
    requires Targets(b) == Targets(b')
    ensures YoungTargets(b, lo, hi) == YoungTargets(b', lo, hi)
  {
  }

  lemma OneMore(v: View, mem: Memory, done: set<int>, o: int)
    requires IsUsed(mem, o)
    ensures RememberedRoots(v, mem, done + {o}) == RememberedRoots(v, mem, done) + YoungTargets(mem[o], v.youngStart, v.youngEnd)
    ensures StillNeeded(v, mem, done + {o})
         == StillNeeded(v, mem, done) + if RefersTo(mem[o], v.youngStart, v.youngEnd) then {o} else {}
  {
    hide YoungTargets, RefersTo;
    var more := done + {o};
    forall x ensures x in RememberedRoots(v, mem, more) <==>
                     x in RememberedRoots(v, mem, done) || x in YoungTargets(mem[o], v.youngStart, v.youngEnd) {
      if x in RememberedRoots(v, mem, more) {
        var p :| p in more && p in mem && x in YoungTargets(mem[p], v.youngStart, v.youngEnd);
      }
      if x in RememberedRoots(v, mem, done) {
        var p :| p in done && p in mem && x in YoungTargets(mem[p], v.youngStart, v.youngEnd);
        assert p in more;
      }
      assert o in more;
    }
  }

  // ---------- the collection ----------

  /** What a young collection starts from, apart from the old objects that are marked already. */
  ghost function YoungRoots(v: View, mem: Memory, remembered: set<int>): set<int>
    requires HasRoots(v, mem)
  {
    PinnedIn(mem, v.youngStart, v.youngEnd) + (SpecialRoots(v, mem, false) + StackRoots(v, mem, false))
    + RememberedRoots(v, mem, remembered)
  }

  /** What a young collection must not lose: whatever the pins, the special objects, the stack or any old object in use reaches. */
  ghost function AllRoots(v: View, mem: Memory): set<int>
    requires HasRoots(v, mem)
  {
    PinnedIn(mem, v.youngStart, v.youngEnd) + SpecialRoots(v, mem, true) + StackRoots(v, mem, true)
    + (set k | k in mem && IsUsed(mem, k) && v.oldStart <= k < v.oldEnd)
  }

  /** Exactly the pinned young objects, the special objects, what the stack refers to, and everything in use in old space. */
  lemma AllRootsExactly(v: View, mem: Memory, x: int)
    requires HasRoots(v, mem)
    ensures x in AllRoots(v, mem) <==>
              || (x in mem && mem[x].Used? && mem[x].pins > 0 && v.youngStart <= x < v.youngEnd)
              || (exists i :: 0 <= i < |mem[v.specialObjects].oops| && mem[v.specialObjects].oops[i] == Ref(x))
              || (exists i :: 0 <= i < v.stackPointer && mem[StackOf(mem, v.interpreter)].oops[i] == Ref(x))
              || (x in mem && mem[x].Used? && v.oldStart <= x < v.oldEnd)
  {
    var xs, ys := mem[v.specialObjects].oops, mem[StackOf(mem, v.interpreter)].oops;
    if i :| 0 <= i < |xs| && xs[i] == Ref(x) {
      assert x in RefsIn(xs);
    }
    if i :| 0 <= i < v.stackPointer && ys[i] == Ref(x) {
      assert ys[..v.stackPointer][i] == Ref(x);
      assert x in RefsIn(ys[..v.stackPointer]);
    }
  }

  ghost function YoungKeys(v: View, mem: Memory): set<int> {
    set k | k in mem && !(v.oldStart <= k < v.oldEnd)
  }

  /** Tracing from the remembered set finds every young object that any old object leads to. */
  lemma FoundIfLive(v: View, mem: Memory, remembered: set<int>, before: set<int>, x: int)
    requires Layout(mem, v.oldStart, v.oldEnd, v.youngStart, v.youngEnd) && HasRoots(v, mem) && RememberedIn(v, mem, remembered)
    requires Live(mem, AllRoots(v, mem), x) && v.youngStart <= x < v.youngEnd
    ensures Reachable(mem, YoungKeys(v, mem), before + YoungRoots(v, mem, remembered), x)
  {
    hide Reachable, Tiled, Space, Layout;
    LayoutSpaces(mem, v.oldStart, v.oldEnd, v.youngStart, v.youngEnd);
    var through, roots := YoungKeys(v, mem), before + YoungRoots(v, mem, remembered);
    var s := set k | k in mem && IsUsed(mem, k) && (v.oldStart <= k < v.oldEnd || Reachable(mem, through, roots, k));
    forall r | r in AllRoots(v, mem) ensures r in s {
      AllRootsFound(v, mem, remembered, r);
      if !(v.oldStart <= r < v.oldEnd) {
        RootReachable(mem, through, roots, r);
      }
    }
    forall a, y | a in s && a in mem && Points(mem[a], y) ensures y in s {
      assert IsUsed(mem, y);
      if !(v.oldStart <= y < v.oldEnd) {
        if v.oldStart <= a < v.oldEnd {
          RememberedTarget(v, mem, remembered, a, y);
          RootReachable(mem, through, roots, y);
        } else {
          ReachableStep(mem, through, roots, a, y);
        }
      }
    }
    ClosedHoldsReachable(mem, mem.Keys, AllRoots(v, mem), s, x);
  }

  lemma AllRootsFound(v: View, mem: Memory, remembered: set<int>, r: int)
    requires HasRoots(v, mem) && Sound(mem) && r in AllRoots(v, mem)
    ensures IsUsed(mem, r) && (v.oldStart <= r < v.oldEnd || r in YoungRoots(v, mem, remembered))
  {
    RootsUsed(v, mem);
    if r in SpecialRoots(v, mem, true) + StackRoots(v, mem, true) {
      assert r in FullRoots(v, mem);
    }
  }

  lemma RememberedTarget(v: View, mem: Memory, remembered: set<int>, a: int, y: int)
    requires RememberedIn(v, mem, remembered) && IsUsed(mem, a) && v.oldStart <= a < v.oldEnd
    requires Points(mem[a], y) && v.youngStart <= y < v.youngEnd
    ensures y in RememberedRoots(v, mem, remembered)
  {
    assert RefersTo(mem[a], v.youngStart, v.youngEnd);
    TargetsPoint(mem[a], y);
    assert y in YoungTargets(mem[a], v.youngStart, v.youngEnd);
  }

  /** Tracing finds nothing else. */
  lemma LiveIfFound(v: View, mem: Memory, remembered: set<int>, before: set<int>, x: int)
    requires Layout(mem, v.oldStart, v.oldEnd, v.youngStart, v.youngEnd) && HasRoots(v, mem) && RememberedIn(v, mem, remembered)
    requires forall k | k in before :: IsUsed(mem, k) && v.oldStart <= k < v.oldEnd
    requires Reachable(mem, YoungKeys(v, mem), before + YoungRoots(v, mem, remembered), x)
    ensures Live(mem, AllRoots(v, mem), x)
  {
    hide Tiled, Space, Layout, Reachable;
    LayoutSpaces(mem, v.oldStart, v.oldEnd, v.youngStart, v.youngEnd);
    var all, roots := AllRoots(v, mem), before + YoungRoots(v, mem, remembered);
    var s := set k | k in mem && IsUsed(mem, k) && Live(mem, all, k);
    forall r | r in roots ensures r in s {
      YoungRootLive(v, mem, remembered, before, r);
    }
    forall a, y | a in s && a in mem && Points(mem[a], y) ensures y in s {
      assert IsUsed(mem, y);
      LiveClosed(mem, all, a, y);
    }
    ClosedHoldsReachable(mem, YoungKeys(v, mem), roots, s, x);
  }

  lemma YoungRootLive(v: View, mem: Memory, remembered: set<int>, before: set<int>, r: int)
    requires Sound(mem) && HasRoots(v, mem) && RememberedIn(v, mem, remembered)
    requires forall k | k in before :: IsUsed(mem, k) && v.oldStart <= k < v.oldEnd
    requires r in before + YoungRoots(v, mem, remembered)
    ensures IsUsed(mem, r) && Live(mem, AllRoots(v, mem), r)
  {
    hide Reachable;
    var all := AllRoots(v, mem);
    if r in RememberedRoots(v, mem, remembered) {
      var o :| o in remembered && o in mem && r in YoungTargets(mem[o], v.youngStart, v.youngEnd);
      TargetsPoint(mem[o], r);
      assert o in all;
      RootReachable(mem, mem.Keys, all, o);
      LiveClosed(mem, all, o, r);
      assert IsUsed(mem, r);
    } else {
      assert r in all;
      RootReachable(mem, mem.Keys, all, r);
      RootsUsed(v, mem);
      if r in SpecialRoots(v, mem, true) + StackRoots(v, mem, true) {
        assert r in FullRoots(v, mem);
      }
    }
  }

  /** What was marked before tracing is old, so tracing does not go on from it. */
  lemma OnlyOldMarked(v: View, mem: Memory, color: bool)
    requires Unmarked(mem, color, v.youngStart, v.youngEnd) && forall k | k in mem :: v.oldStart <= k < v.oldEnd || v.youngStart <= k < v.youngEnd
    ensures forall k | k in Marked(mem, color) :: IsUsed(mem, k) && v.oldStart <= k < v.oldEnd
    ensures Marked(mem, color) !! YoungKeys(v, mem)
  {
  }

  /** The first half of heap_gc: afterwards a young object is marked if and only if it must not be lost. */
  method MarkYoung(h: Heap)
    requires h.Valid() && RememberedOk(h) && h.markStack.Length > 0
    modifies h`mem, h`markColor, h`markStack, h`markStackPosition, h`pushed, h`before, h`remembered, h.markStack
    ensures h.Valid() && SameButMarks(old(h.mem), h.mem)
    ensures forall x | h.IsYoung(x) :: IsMarked(h.mem, h.markColor, x) <==> Live(old(h.mem), old(AllRoots(ViewOf(h), h.mem)), x)
    ensures h.remembered == old(StillNeeded(ViewOf(h), h.mem, h.remembered))
    ensures h.markStack.Length > 0 && (h.markStack == old(h.markStack) || fresh(h.markStack))
  {
    hide SameButMarks, Reachable, Tiled, Space, Sound, Marked, AllRoots, YoungRoots, PinnedIn, Log, Distinct, SpecialRoots, StackRoots,
         RememberedRoots, StillNeeded, RefersTo, Layout, YoungKeys;
    ghost var mem0, v, remembered := h.mem, ViewOf(h), h.remembered;
    UnmarkYoung(h, v);
    ghost var mem1, before := h.mem, h.before;
    MarkYoungRoots(h, mem0, v, remembered);
    ghost var mem2 := h.mem;
    SameKeys(mem0, mem2);
    FollowedYoung(h, v, mem0);
    h.MarkRecursively(false);
    SameButMarksTrans(mem0, mem2, h.mem);
    forall x | h.IsYoung(x) ensures IsMarked(h.mem, h.markColor, x) <==> Live(mem0, AllRoots(v, mem0), x) {
      MarkedYoung(v, mem0, mem2, h.mem, h.markColor, remembered, before, x);
    }
  }

  lemma FollowedYoung(h: Heap, v: View, mem0: Memory)
    requires v == ViewOf(h) && h.mem.Keys == mem0.Keys
    ensures h.Followed(false) == YoungKeys(v, mem0)
  {
  }

  lemma MarkedYoung(v: View, mem0: Memory, mem2: Memory, mem3: Memory, color: bool, remembered: set<int>, before: set<int>, x: int)
    requires Layout(mem0, v.oldStart, v.oldEnd, v.youngStart, v.youngEnd) && HasRoots(v, mem0) && RememberedIn(v, mem0, remembered)
    requires forall k | k in before :: IsUsed(mem0, k) && v.oldStart <= k < v.oldEnd
    requires SameButMarks(mem0, mem2) && v.youngStart <= x < v.youngEnd
    requires x in Marked(mem3, color) <==> Reachable(mem2, YoungKeys(v, mem0), before + YoungRoots(v, mem0, remembered), x)
    ensures IsMarked(mem3, color, x) <==> Live(mem0, AllRoots(v, mem0), x)
  {
    hide Reachable, Live, AllRoots, YoungRoots, Layout, RememberedIn, SameButMarks;
    assert IsMarked(mem3, color, x) <==> x in Marked(mem3, color);
    SameReachable(mem0, mem2, YoungKeys(v, mem0), before + YoungRoots(v, mem0, remembered), x);
    if Live(mem0, AllRoots(v, mem0), x) {
      FoundIfLive(v, mem0, remembered, before, x);
    }
    if Reachable(mem0, YoungKeys(v, mem0), before + YoungRoots(v, mem0, remembered), x) {
      LiveIfFound(v, mem0, remembered, before, x);
    }
  }

  /** heap_start_gc, and heap_unmark_all for young space. */
  method UnmarkYoung(h: Heap, ghost v: View)
    requires h.Valid() && v == ViewOf(h) && h.markStack.Length > 0
    modifies h`mem, h`markColor, h`markStackPosition, h`pushed, h`before
    ensures h.Tracing() && SameButMarks(old(h.mem), h.mem) && h.markStackPosition == 0
    ensures h.before == Marked(h.mem, h.markColor) && h.before !! YoungKeys(v, old(h.mem))
    ensures forall k | k in h.before :: IsUsed(old(h.mem), k) && v.oldStart <= k < v.oldEnd
  {
    hide SameButMarks, Layout, RootsIn, Space, Marked, YoungKeys, Log;
    StartGc(h);
    ghost var mem0 := h.mem;
    LayoutSpaces(mem0, v.oldStart, v.oldEnd, v.youngStart, v.youngEnd);
    UnmarkAll(h, h.memoryYoung, h.memoryYoungSize);
    SameHeap(v, mem0, h.mem);
    LayoutSpaces(h.mem, v.oldStart, v.oldEnd, v.youngStart, v.youngEnd);
    SameKeys(mem0, h.mem);
    OnlyOldMarked(v, h.mem, h.markColor);
    assert YoungKeys(v, h.mem) == YoungKeys(v, mem0) by { SameYoungKeys(v, mem0, h.mem); }
    h.pushed, h.before := [], Marked(h.mem, h.markColor);
    NothingPushedYet(h.before, h.Pending());
    forall k | k in h.before ensures IsUsed(mem0, k) {
      StillUsed(h.mem, mem0, k);
    }
  }

  lemma NothingPushedYet(before: set<int>, pending: seq<int>)
    requires |pending| == 0
    ensures Log([], before, before, pending)
  {
  }

  lemma SameYoungKeys(v: View, mem: Memory, mem': Memory)
    requires mem.Keys == mem'.Keys
    ensures YoungKeys(v, mem) == YoungKeys(v, mem')
  {
  }

  lemma SameRememberedRoots(v: View, mem: Memory, mem': Memory, remembered: set<int>)
    requires SameButMarks(mem, mem') && forall o | o in remembered :: IsUsed(mem, o)
    ensures RememberedRoots(v, mem', remembered) == RememberedRoots(v, mem, remembered)
    ensures StillNeeded(v, mem', remembered) == StillNeeded(v, mem, remembered)
  {
    hide RefersTo, Targets, YoungTargets;
    forall o | o in remembered
      ensures IsUsed(mem', o) && YoungTargets(mem'[o], v.youngStart, v.youngEnd) == YoungTargets(mem[o], v.youngStart, v.youngEnd)
      ensures RefersTo(mem'[o], v.youngStart, v.youngEnd) <==> RefersTo(mem[o], v.youngStart, v.youngEnd)
    {
      SameTargetsOf(mem, mem', o);
      SameYoungTargets(mem[o], mem'[o], v.youngStart, v.youngEnd);
    }
  }

  method MarkYoungRoots(h: Heap, ghost mem0: Memory, ghost v: View, ghost remembered: set<int>)
    requires h.Tracing() && SameButMarks(mem0, h.mem) && v == ViewOf(h) && remembered == h.remembered && RememberedIn(v, mem0, remembered)
    requires HasRoots(v, mem0) && h.before == Marked(h.mem, h.markColor) && h.markStackPosition == 0
    modifies h`mem, h`pushed, h`markStack, h`markStackPosition, h`remembered, h.markStack
    ensures h.Tracing() && SameButMarks(mem0, h.mem) && (h.markStack == old(h.markStack) || fresh(h.markStack))
    ensures Marked(h.mem, h.markColor) == h.before + YoungRoots(v, mem0, remembered)
    ensures h.PendingSet() == Marked(h.mem, h.markColor) - h.before
    ensures h.remembered == StillNeeded(v, mem0, remembered)
  {
    hide SameButMarks, Layout, RootsIn, Marked, Log, Distinct, PinnedIn, RootsAmong, SpecialRoots, StackRoots, RememberedRoots, StillNeeded, RefersTo;
    ghost var mem1 := h.mem;
    assert h.PendingSet() == {};
    SameRoots(v, mem0, mem1);
    MarkPinnedSpecialsStack(h, v);
    ghost var mem3 := h.mem;
    SameButMarksTrans(mem0, mem1, mem3);
    SameRememberedRoots(v, mem0, mem3, remembered);
    StillRemembered(mem0, mem3, remembered);
    MarkRemembered(h);
    SameButMarksTrans(mem0, mem3, h.mem);
  }

  method MarkPinnedSpecialsStack(h: Heap, ghost v: View)
    requires h.Tracing() && v == ViewOf(h)
    modifies h`mem, h`pushed, h`markStack, h`markStackPosition, h.markStack
    ensures MarkedAlso(h, old(PinnedIn(h.mem, v.youngStart, v.youngEnd) + (SpecialRoots(v, h.mem, false) + StackRoots(v, h.mem, false))))
    ensures h.markStack == old(h.markStack) || fresh(h.markStack)
  {
    hide SameButMarks, Layout, RootsIn, Marked, Log, Distinct, PinnedIn, RootsAmong, SpecialRoots, StackRoots;
    ghost var mem1 := h.mem;
    LayoutSpaces(mem1, v.oldStart, v.oldEnd, v.youngStart, v.youngEnd);
    MarkPinned(h, h.memoryYoung, h.memoryYoungSize);
    ghost var mem2 := h.mem;
    SameRoots(v, mem1, mem2);
    MarkSpecialsAndStack(h, false);
    SameButMarksTrans(mem1, mem2, h.mem);
  }

  lemma StillRemembered(mem0: Memory, mem: Memory, remembered: set<int>)
    requires SameButMarks(mem0, mem) && forall o | o in remembered :: IsUsed(mem0, o)
    ensures forall o | o in remembered :: IsUsed(mem, o)
  {
  }

  /** A young collection keeps exactly what must not be lost, where it was and as it was but for the mark; old objects stay. */
  ghost predicate YoungKept(v: View, mem0: Memory, mem: Memory)
    requires HasRoots(v, mem0)
  {
    && (forall x | v.youngStart <= x < v.youngEnd :: IsUsed(mem, x) <==> Live(mem0, AllRoots(v, mem0), x))
    && (forall x | v.youngStart <= x < v.youngEnd && IsUsed(mem, x) :: x in mem0 && SameButMark(mem0[x], mem[x]))
    && (forall x | v.oldStart <= x < v.oldEnd :: (x in mem0 <==> x in mem) && (x in mem ==> SameButMark(mem0[x], mem[x])))
  }

  /** Field by field: what is kept is what it was, but for the mark. */
  lemma YoungKeptExactly(v: View, mem0: Memory, mem: Memory, x: int)
    requires HasRoots(v, mem0) && YoungKept(v, mem0, mem) && x in mem && mem[x].Used?
    requires v.youngStart <= x < v.youngEnd || v.oldStart <= x < v.oldEnd
    ensures x in mem0 && mem0[x].Used?
    ensures var b, c := mem0[x], mem[x];
      c.kind == b.kind && c.hash == b.hash && c.pins == b.pins && c.raw == b.raw && c.mapOop == b.mapOop && c.oops == b.oops
  {
    hide Live, AllRoots;
    assert IsUsed(mem, x);
  }

  lemma SweptYoung(v: View, mem0: Memory, mem1: Memory, mem2: Memory, color: bool)
    requires Layout(mem0, v.oldStart, v.oldEnd, v.youngStart, v.youngEnd) && HasRoots(v, mem0) && SameButMarks(mem0, mem1)
    requires forall x | v.youngStart <= x < v.youngEnd :: IsMarked(mem1, color, x) <==> Live(mem0, AllRoots(v, mem0), x)
    requires Swept(mem1, mem2, color, v.youngStart, v.youngEnd)
    ensures YoungKept(v, mem0, mem2)
  {
    hide Live, AllRoots, Tiled, Space, Coalesced, Sound;
    forall x | v.youngStart <= x < v.youngEnd
      ensures IsUsed(mem2, x) <==> Live(mem0, AllRoots(v, mem0), x)
      ensures IsUsed(mem2, x) ==> x in mem0 && SameButMark(mem0[x], mem2[x])
    {
      assert IsUsed(mem2, x) <==> IsMarked(mem1, color, x);
    }
  }

  /** No reference dangles after a young collection. */
  lemma YoungSound(v: View, mem0: Memory, mem: Memory)
    requires Layout(mem0, v.oldStart, v.oldEnd, v.youngStart, v.youngEnd) && HasRoots(v, mem0) && YoungKept(v, mem0, mem)
    requires forall k | k in mem :: v.oldStart <= k < v.oldEnd || v.youngStart <= k < v.youngEnd
    ensures Sound(mem)
  {
    hide Live, AllRoots, Tiled, Space, Points;
    forall k, x | k in mem && Points(mem[k], x) ensures IsUsed(mem, x) {
      PointsUsed(mem[k], x);
      assert IsUsed(mem, k);
      PointsSame(mem0[k], mem[k], x);
      assert IsUsed(mem0, x);
      if v.youngStart <= x < v.youngEnd {
        if v.oldStart <= k < v.oldEnd {
          AllLive(v, mem0, k);
        }
        LiveClosed(mem0, AllRoots(v, mem0), k, x);
      }
    }
  }

  lemma PointsUsed(b: Block, x: int)
    requires Points(b, x)
    ensures b.Used?
  {
  }

  lemma AllLive(v: View, mem: Memory, k: int)
    requires HasRoots(v, mem) && IsUsed(mem, k) && v.oldStart <= k < v.oldEnd
    ensures Live(mem, AllRoots(v, mem), k)
  {
    RootReachable(mem, mem.Keys, AllRoots(v, mem), k);
  }

  lemma YoungRemembered(v: View, mem0: Memory, mem: Memory, remembered: set<int>)
    requires HasRoots(v, mem0) && YoungKept(v, mem0, mem) && RememberedIn(v, mem0, remembered)
    ensures RememberedIn(v, mem, StillNeeded(v, mem0, remembered))
  {
    hide Live, AllRoots, Points;
    forall k | v.oldStart <= k < v.oldEnd && IsUsed(mem, k)
      ensures IsUsed(mem0, k) && (RefersTo(mem[k], v.youngStart, v.youngEnd) <==> RefersTo(mem0[k], v.youngStart, v.youngEnd))
    {
      forall x ensures Points(mem[k], x) <==> Points(mem0[k], x) {
        PointsSame(mem0[k], mem[k], x);
      }
    }
    forall k | v.oldStart <= k < v.oldEnd && IsUsed(mem0, k) ensures IsUsed(mem, k) {
      assert SameButMark(mem0[k], mem[k]);
    }
  }

  lemma NoOldDead(mem: Memory, color: bool, v: View)
    requires v.oldEnd <= v.youngStart || v.youngEnd <= v.oldStart
    ensures OldDead(mem, color, v.youngStart, v.youngEnd, v.oldStart, v.oldEnd) == {}
  {
  }

  /** The interpreter's stack is kept where it is, old or young. */
  lemma YoungStack(v: View, mem0: Memory, mem: Memory)
    requires HasRoots(v, mem0) && Sound(mem0) && YoungKept(v, mem0, mem)
    requires forall k | k in mem0 :: v.oldStart <= k < v.oldEnd || v.youngStart <= k < v.youngEnd
    requires v.oldStart <= v.specialObjects < v.oldEnd && v.oldStart <= v.interpreter < v.oldEnd
    ensures HasRoots(v, mem) && StackOf(mem, v.interpreter) == StackOf(mem0, v.interpreter)
    ensures SameButMark(mem0[v.specialObjects], mem[v.specialObjects])
    ensures SameButMark(mem0[StackOf(mem0, v.interpreter)], mem[StackOf(mem0, v.interpreter)])
  {
    hide Live, AllRoots;
    var s := StackOf(mem0, v.interpreter);
    AllLive(v, mem0, v.interpreter);
    assert Ref(s) in mem0[v.interpreter].oops;
    LiveClosed(mem0, AllRoots(v, mem0), v.interpreter, s);
    assert SameButMark(mem0[v.specialObjects], mem[v.specialObjects]) && SameButMark(mem0[v.interpreter], mem[v.interpreter]);
    assert IsUsed(mem, s);
  }

  lemma YoungLayout(v: View, mem0: Memory, mem1: Memory, mem2: Memory, color: bool)
    requires Layout(mem1, v.oldStart, v.oldEnd, v.youngStart, v.youngEnd) && Swept(mem1, mem2, color, v.youngStart, v.youngEnd)
    requires Layout(mem0, v.oldStart, v.oldEnd, v.youngStart, v.youngEnd) && HasRoots(v, mem0) && YoungKept(v, mem0, mem2)
    requires v.oldStart <= v.specialObjects < v.oldEnd && v.oldStart <= v.interpreter < v.oldEnd
    ensures Layout(mem2, v.oldStart, v.oldEnd, v.youngStart, v.youngEnd) && HasRoots(v, mem2)
  {
    hide Tiled, Sound, Live, AllRoots, KeptMarked, Coalesced;
    YoungStack(v, mem0, mem2);
    SpaceSame(mem1, mem2, v.oldStart, v.oldEnd);
    YoungSound(v, mem0, mem2);
  }

  /** heap_gc. */
  method YoungGc(h: Heap)
    requires h.Valid() && RememberedOk(h) && h.markStack.Length > 0
    requires h.IsOld(h.specialObjects) && h.IsOld(h.interpreter)
    modifies h`mem, h`markColor, h`markStack, h`markStackPosition, h`pushed, h`before, h`remembered, h`nextFree, h`doFullGCNext, h.markStack
    ensures h.Valid() && RememberedOk(h) && (h.memoryYoungSize > 0 ==> h.doFullGCNext == old(h.doFullGCNext))
    ensures old(CursorsOk(h)) ==> CursorsOk(h)
    ensures old(RootsStay(ViewOf(h), h.mem)) ==> RootsStay(ViewOf(h), h.mem)
    ensures YoungKept(old(ViewOf(h)), old(h.mem), h.mem)
    ensures Coalesced(h.mem, h.memoryYoung, h.memoryYoung + h.memoryYoungSize)
    ensures h.remembered == old(StillNeeded(ViewOf(h), h.mem, h.remembered)) && h.nextFree == h.memoryYoung
    ensures h.markStack.Length > 0 && (h.markStack == old(h.markStack) || fresh(h.markStack))
  {
    hide SameButMarks, Space, Live, AllRoots, StillNeeded, Swept, Layout, RootsIn, RefersTo, Coalesced, RememberedIn, RootsStay, YoungKept, Marked, IsMarked;
    ghost var mem0, v := h.mem, ViewOf(h);
    MarkYoung(h);
    ghost var mem1 := h.mem;
    LayoutSpaces(mem1, v.oldStart, v.oldEnd, v.youngStart, v.youngEnd);
    FreeAndCoalesceUnmarked(h, h.memoryYoung, h.memoryYoungSize);
    NoOldDead(mem1, h.markColor, v);
    NothingErased(h.remembered, StillNeeded(v, mem0, old(h.remembered)));
    h.nextFree := h.memoryYoung;
    AfterYoung(v, mem0, mem1, h.mem, h.markColor, old(h.remembered));
    if RootsStay(v, mem0) {
      YoungRootsStay(v, mem0, h.mem);
    }
    FirstYoung(v, h.mem);
  }

  lemma NothingErased(a: set<int>, b: set<int>)
    ensures a == b - {} ==> a == b
  {
  }

  lemma AfterYoung(v: View, mem0: Memory, mem1: Memory, mem2: Memory, color: bool, remembered: set<int>)
    requires Layout(mem0, v.oldStart, v.oldEnd, v.youngStart, v.youngEnd) && HasRoots(v, mem0) && SameButMarks(mem0, mem1)
    requires Layout(mem1, v.oldStart, v.oldEnd, v.youngStart, v.youngEnd)
    requires forall x | v.youngStart <= x < v.youngEnd :: IsMarked(mem1, color, x) <==> Live(mem0, AllRoots(v, mem0), x)
    requires Swept(mem1, mem2, color, v.youngStart, v.youngEnd) && RememberedIn(v, mem0, remembered)
    requires v.oldStart <= v.specialObjects < v.oldEnd && v.oldStart <= v.interpreter < v.oldEnd
    ensures YoungKept(v, mem0, mem2) && Layout(mem2, v.oldStart, v.oldEnd, v.youngStart, v.youngEnd) && HasRoots(v, mem2)
    ensures RememberedIn(v, mem2, StillNeeded(v, mem0, remembered))
    ensures Coalesced(mem2, v.youngStart, v.youngEnd) && Space(mem2, v.youngStart, v.youngEnd)
    ensures forall k | v.oldStart <= k < v.oldEnd && k in mem0 :: k in mem2
  {
    hide SameButMarks, Tiled, Space, Live, AllRoots, StillNeeded, RefersTo, Layout;
    SweptYoung(v, mem0, mem1, mem2, color);
    YoungLayout(v, mem0, mem1, mem2, color);
    YoungRemembered(v, mem0, mem2, remembered);
  }

  /** What the roots led to before, they lead to now, so that collections may follow each other. */
  lemma YoungRootsStay(v: View, mem0: Memory, mem: Memory)
    requires Layout(mem0, v.oldStart, v.oldEnd, v.youngStart, v.youngEnd) && RootsStay(v, mem0) && YoungKept(v, mem0, mem)
    requires Layout(mem, v.oldStart, v.oldEnd, v.youngStart, v.youngEnd) && HasRoots(v, mem)
    ensures RootsStay(v, mem)
  {
    hide Tiled, Space, Reachable, AllRoots, FullRoots, Points;
    var roots, roots' := FullRoots(v, mem0), FullRoots(v, mem);
    var s := set k | k in mem0 && Live(mem, roots', k);
    forall r | r in roots ensures r in s {
      YoungRootStays(v, mem0, mem, r);
      RootReachable(mem, mem.Keys, roots', r);
    }
    RootsUsed(v, mem);
    forall a, y | a in s && a in mem0 && Points(mem0[a], y) ensures y in s {
      LiveUsed(mem, roots', a);
      PointsSame(mem0[a], mem[a], y);
      LiveClosed(mem, roots', a, y);
      PointsUsed(mem0[a], y);
      assert IsUsed(mem0, y);
    }
    ClosedHoldsReachable(mem0, mem0.Keys, roots, s, v.specialObjects);
    ClosedHoldsReachable(mem0, mem0.Keys, roots, s, v.interpreter);
  }

  lemma YoungRootStays(v: View, mem0: Memory, mem: Memory, r: int)
    requires HasRoots(v, mem0) && HasRoots(v, mem) && YoungKept(v, mem0, mem) && Sound(mem0) && r in FullRoots(v, mem0)
    requires forall k | k in mem0 :: v.oldStart <= k < v.oldEnd || v.youngStart <= k < v.youngEnd
    requires v.oldStart <= v.specialObjects < v.oldEnd && v.oldStart <= v.interpreter < v.oldEnd
    ensures r in FullRoots(v, mem) && r in mem0
  {
    hide Live;
    RootsUsed(v, mem0);
    YoungStack(v, mem0, mem);
    if r in PinnedIn(mem0, v.youngStart, v.youngEnd) {
      RootReachable(mem0, mem0.Keys, AllRoots(v, mem0), r);
      IsLive(mem0, AllRoots(v, mem0), r);
      assert IsUsed(mem, r) && SameButMark(mem0[r], mem[r]);
    } else if r in PinnedIn(mem0, v.oldStart, v.oldEnd) {
      assert SameButMark(mem0[r], mem[r]);
    }
  }
}

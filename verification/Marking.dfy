/** Tracing: marking the roots and then everything that can be reached from them. */
module Marking {
  import opened HeapModel

  predicate IsMarked(mem: Memory, color: bool, x: int) {
    IsUsed(mem, x) && mem[x].mark == color
  }

  ghost function Marked(mem: Memory, color: bool): set<int> {
    set x | x in mem && IsMarked(mem, color, x)
  }

  /** The objects a word refers to. */
  function Target(o: Oop): set<int> {
    if o.Ref? then {o.addr} else {}
  }

  /** Two spaces, each exactly tiled, apart from each other, and nothing else; every reference is to a used block. */
  ghost predicate Layout(mem: Memory, oldStart: int, oldEnd: int, youngStart: int, youngEnd: int) {
    && Space(mem, oldStart, oldEnd) && Space(mem, youngStart, youngEnd)
    && (oldEnd <= youngStart || youngEnd <= oldStart)
    && (forall k | k in mem :: oldStart <= k < oldEnd || youngStart <= k < youngEnd)
    && Sound(mem)
  }

  /** The place of `stack` among the slots of an interpreter. */
  const STACK_SLOT: nat := 0

  /** The interpreter has a stack. */
  predicate HasStack(mem: Memory, interpreter: int) {
    && IsUsed(mem, interpreter) && STACK_SLOT < |mem[interpreter].oops| && mem[interpreter].oops[STACK_SLOT].Ref?
    && IsUsed(mem, mem[interpreter].oops[STACK_SLOT].addr)
  }

  /** The array that the interpreter's stack is in. */
  function StackOf(mem: Memory, interpreter: int): int
    requires HasStack(mem, interpreter)
  {
    mem[interpreter].oops[STACK_SLOT].addr
  }

  /** The objects tracing starts from: the array of special objects, and the interpreter with its stack. */
  ghost predicate RootsIn(mem: Memory, specialObjects: int, interpreter: int, stackPointer: nat) {
    IsUsed(mem, specialObjects) && HasStack(mem, interpreter) && stackPointer <= |mem[StackOf(mem, interpreter)].oops|
  }

  lemma SameLayout(mem: Memory, mem': Memory, oldStart: int, oldEnd: int, youngStart: int, youngEnd: int)
    requires SameButMarks(mem, mem') && Layout(mem, oldStart, oldEnd, youngStart, youngEnd)
    ensures Layout(mem', oldStart, oldEnd, youngStart, youngEnd)
    ensures forall s, o, n | RootsIn(mem, s, o, n) :: RootsIn(mem', s, o, n)
  {
    SameGraph(mem, mem');
  }

  lemma MarkOne(mem: Memory, color: bool, x: int)
    requires IsUsed(mem, x)
    ensures var mem' := mem[x := mem[x].(mark := color)];
      SameButMarks(mem, mem') && Marked(mem', color) == Marked(mem, color) + {x}
  {
  }

  lemma AlreadyMarked(mem: Memory, color: bool, x: int)
    requires IsUsed(mem, x)
    ensures IsMarked(mem, color, x) <==> x in Marked(mem, color)
    ensures mem[x].mark == color ==> Marked(mem, color) + {x} == Marked(mem, color)
  {
  }

  ghost predicate Distinct(xs: seq<int>) {
    forall i, j | 0 <= i < j < |xs| :: xs[i] != xs[j]
  }

  ghost function Elements(xs: seq<int>): set<int> {
    set x | x in xs
  }

  /** What was pushed is what has been marked since tracing began, each object once, and what is pending was pushed. */
  ghost predicate Log(pushed: seq<int>, before: set<int>, marked: set<int>, pending: seq<int>) {
    && Distinct(pushed) && Elements(pushed) == marked - before && before <= marked
    && Distinct(pending) && Elements(pending) <= Elements(pushed)
  }

  lemma LogMore(pushed: seq<int>, before: set<int>, marked: set<int>, pending: seq<int>, x: int)
    requires Log(pushed, before, marked, pending) && x !in marked
    ensures Log(pushed + [x], before, marked + {x}, pending + [x])
  {
    assert x !in Elements(pushed) && x !in Elements(pending);
    assert x !in pushed && x !in pending;
    assert Elements(pushed + [x]) == Elements(pushed) + {x};
    assert Elements(pending + [x]) == Elements(pending) + {x};
  }

  class Heap {
    var mem: Memory
    var memoryOld: int
    var memoryOldSize: int
    var memoryOldLimit: int
    var memoryYoung: int
    var memoryYoungSize: int
    var specialObjects: int
    /** The interpreter, whose stack is wherever its slot says, and how much of the stack is in use. */
    var interpreter: int
    var stackPointer: nat
    var markColor: bool
    var markStack: array<int>
    var markStackPosition: nat
    /** Every object that was pushed since tracing began, in order. */
    ghost var pushed: seq<int>
    /** What had the colour of marked objects already when tracing began: old objects, in a young collection. */
    ghost var before: set<int>
    var remembered: set<int>
    var nextFree: int
    var nextOldFree: int
    var doFullGCNext: bool

    predicate IsOld(x: int)
      reads this
    {
      memoryOld <= x < memoryOld + memoryOldSize
    }

    predicate IsYoung(x: int)
      reads this
    {
      memoryYoung <= x < memoryYoung + memoryYoungSize
    }

    ghost predicate Valid()
      reads this
    {
      && Layout(mem, memoryOld, memoryOld + memoryOldSize, memoryYoung, memoryYoung + memoryYoungSize)
      && RootsIn(mem, specialObjects, interpreter, stackPointer)
      && memoryOldSize <= memoryOldLimit
      && (memoryOld + memoryOldLimit <= memoryYoung || memoryYoung + memoryYoungSize <= memoryOld)
    }

    ghost function Pending(): seq<int>
      reads this, markStack
      requires markStackPosition <= markStack.Length
    {
      markStack[..markStackPosition]
    }

    /** Tracing goes on: what is marked was pushed, once, and what is still pending is marked. */
    ghost predicate Tracing()
      reads this, markStack
    {
      && Valid() && markStackPosition < markStack.Length
      && Log(pushed, before, Marked(mem, markColor), Pending())
    }

    ghost function PendingSet(): set<int>
      reads this, markStack
      requires markStackPosition <= markStack.Length
    {
      Elements(Pending())
    }

    /** The objects marked since: all of them are pending, on top of what was pending before. */
    twostate predicate NewlyPending()
      reads this, markStack
      requires markStackPosition <= markStack.Length && old(markStackPosition <= markStack.Length)
    {
      PendingSet() == old(PendingSet()) + (Marked(mem, markColor) - old(Marked(mem, markColor)))
    }

    /** heap_mark: marks an object that is not marked yet and pushes it; the stack doubles when it is about to be full. */
    method Mark(x: int)
      requires Tracing() && IsUsed(mem, x)
      modifies this`mem, this`pushed, this`markStack, this`markStackPosition, markStack
      ensures Tracing() && SameButMarks(old(mem), mem) && (markStack == old(markStack) || fresh(markStack))
      ensures Marked(mem, markColor) == old(Marked(mem, markColor)) + {x}
      ensures NewlyPending()
    {
      hide Layout, RootsIn, SameButMarks, Log, Marked;
      AlreadyMarked(mem, markColor, x);
      if mem[x].mark == markColor {
        SameMarksRefl(mem);
        return;
      }
      MarkOne(mem, markColor, x);
      LogMore(pushed, before, Marked(mem, markColor), Pending(), x);
      mem := mem[x := mem[x].(mark := markColor)];
      SameLayout(old(mem), mem, memoryOld, memoryOld + memoryOldSize, memoryYoung, memoryYoung + memoryYoungSize);
      pushed := pushed + [x];
      Push(x);
      Grew(old(mem), mem, markColor, old(Pending()), Pending(), x);
    }

    /** Marks what a word refers to, if it refers to an object. */
    method MarkOop(val: Oop)
      requires Tracing() && (val.Ref? ==> IsUsed(mem, val.addr))
      modifies this`mem, this`pushed, this`markStack, this`markStackPosition, markStack
      ensures Tracing() && SameButMarks(old(mem), mem) && (markStack == old(markStack) || fresh(markStack)) && NewlyPending()
      ensures Marked(mem, markColor) == old(Marked(mem, markColor)) + Target(val)
    {
      hide Layout, RootsIn, SameButMarks, Log, Marked;
      SameMarksRefl(mem);
      if val.Ref? {
        Mark(val.addr);
      }
    }

    /** Puts x on the mark stack, which doubles when it is about to be full. */
    method Push(x: int)
      requires markStackPosition < markStack.Length
      modifies this`markStack, this`markStackPosition, markStack
      ensures markStackPosition < markStack.Length && (markStack == old(markStack) || fresh(markStack))
      ensures Pending() == old(Pending()) + [x]
    {
      if markStackPosition + 1 >= markStack.Length {
        var grown := new int[2 * markStack.Length];
        forall i | 0 <= i < markStackPosition {
          grown[i] := markStack[i];
        }
        markStack := grown;
      }
      markStack[markStackPosition] := x;
      markStackPosition := markStackPosition + 1;
    }

    /** The slots and array elements of an object. */
    method MarkWords(o: int)
      requires Tracing() && IsUsed(mem, o)
      modifies this`mem, this`pushed, this`markStack, this`markStackPosition, markStack
      ensures Tracing() && SameButMarks(old(mem), mem) && (markStack == old(markStack) || fresh(markStack)) && NewlyPending()
      ensures Marked(mem, markColor) == old(Marked(mem, markColor)) + old(RefsIn(mem[o].oops))
    {
      hide Layout, RootsIn, SameButMarks, Log, Marked, Distinct, RefsIn, Elements, Target;
      ghost var xs, marked, pending := mem[o].oops, Marked(mem, markColor), PendingSet();
      FieldsSound(mem, memoryOld, memoryOld + memoryOldSize, memoryYoung, memoryYoung + memoryYoungSize, o);
      SameMarksRefl(mem);
      NoRefs(xs);
      var i := 0;
      while i < |mem[o].oops|
        invariant o in mem && mem[o].Used? && mem[o].oops == xs && 0 <= i <= |xs|
        invariant Tracing() && SameButMarks(old(mem), mem) && (markStack == old(markStack) || fresh(markStack))
        invariant Marked(mem, markColor) == marked + RefsIn(xs[..i])
        invariant PendingSet() == pending + (Marked(mem, markColor) - marked)
      {
        ghost var before, marked1, pending1 := mem, Marked(mem, markColor), PendingSet();
        assert xs[..i + 1] == xs[..i] + [xs[i]];
        RefsMore(xs[..i], xs[i]);
        TargetUsed(old(mem), before, xs, i);
        MarkOop(mem[o].oops[i]);
        PendingMore(marked, pending, RefsIn(xs[..i]), marked1, pending1, Target(xs[i]), Marked(mem, markColor), PendingSet());
        SameButMarksTrans(old(mem), before, mem);
        SameBlock(before, mem, o);
        i := i + 1;
      }
      assert xs[..|xs|] == xs;
    }

    /** heap_mark_fields: marks the map and every object a slot or an array element refers to. */
    method MarkFields(o: int)
      requires Tracing() && IsUsed(mem, o)
      modifies this`mem, this`pushed, this`markStack, this`markStackPosition, markStack
      ensures Tracing() && SameButMarks(old(mem), mem) && (markStack == old(markStack) || fresh(markStack)) && NewlyPending()
      ensures Marked(mem, markColor) == old(Marked(mem, markColor)) + old(Targets(mem[o]))
    {
      hide Layout, RootsIn, SameButMarks, Log, Marked, Distinct, RefsIn;
      FieldsSound(mem, memoryOld, memoryOld + memoryOldSize, memoryYoung, memoryYoung + memoryYoungSize, o);
      Mark(mem[o].mapOop);
      ghost var before := mem;
      SameBlock(old(mem), before, o);
      MarkWords(o);
      SameButMarksTrans(old(mem), before, mem);
    }

    /** heap_mark_recursively: pops until nothing is pending; old objects are followed only when markOld. */
    method MarkRecursively(markOld: bool)
      requires Tracing() && PendingSet() == Marked(mem, markColor) - before && before !! Followed(markOld)
      modifies this`mem, this`pushed, this`markStack, this`markStackPosition, markStack
      ensures Tracing() && SameButMarks(old(mem), mem) && (markStack == old(markStack) || fresh(markStack)) && markStackPosition == 0
      ensures forall x :: x in Marked(mem, markColor) <==>
                Reachable(old(mem), old(Followed(markOld)), old(Marked(mem, markColor)), x)
    {
      hide Layout, RootsIn, SameButMarks, Log, Marked, Distinct, Reachable, Points, TraceInv, Elements;
      ghost var mem0, through, roots := mem, Followed(markOld), Marked(mem, markColor);
      SameMarksRefl(mem);
      TraceStarts(mem0, through, roots, PendingSet());
      while markStackPosition > 0
        invariant Tracing() && SameButMarks(mem0, mem) && (markStack == old(markStack) || fresh(markStack))
        invariant TraceInv(mem0, through, roots, Marked(mem, markColor), PendingSet())
        decreases mem0.Keys - Marked(mem, markColor), PendingSet()
      {
        MarkNext(mem0, markOld, through, roots);
      }
      NoElements(Pending());
      TraceEnds(mem0, through, roots, Marked(mem, markColor), PendingSet());
    }

    /** The object on top of the mark stack is popped and, unless it is old and not to be followed, its fields are marked. */
    method MarkNext(ghost mem0: Memory, markOld: bool, ghost through: set<int>, ghost roots: set<int>)
      requires Tracing() && markStackPosition > 0 && SameButMarks(mem0, mem) && TraceInv(mem0, through, roots, Marked(mem, markColor), PendingSet())
      requires through == set x | x in mem0 && (markOld || !IsOld(x))
      modifies this`mem, this`pushed, this`markStack, this`markStackPosition, markStack
      ensures Tracing() && SameButMarks(mem0, mem) && (markStack == old(markStack) || fresh(markStack))
      ensures TraceInv(mem0, through, roots, Marked(mem, markColor), PendingSet())
      ensures old(Marked(mem, markColor)) <= Marked(mem, markColor) <= mem0.Keys
      ensures Marked(mem, markColor) == old(Marked(mem, markColor)) ==> PendingSet() < old(PendingSet())
    {
      hide Layout, RootsIn, SameButMarks, Log, Marked, Distinct, Reachable, Points, TraceInv, Elements;
      ghost var pending, marked := Pending(), Marked(mem, markColor);
      var o := markStack[markStackPosition - 1];
      assert o == pending[|pending| - 1];
      PopLog(pushed, before, marked, pending);
      markStackPosition := markStackPosition - 1;
      assert Pending() == pending[..|pending| - 1];
      MarkedIsUsed(mem, markColor, o);
      SameKeys(mem0, mem);
      OnTop(pending);
      assert Followed(markOld) == through;
      if markOld || !IsOld(o) {
        TraceOne(mem0, markOld, o, pending, marked, roots);
      } else {
        NotFollowed(mem0, through, roots, o, marked, pending, PendingSet());
        MarkedInside(mem, markColor);
      }
    }

    /** One object taken from the mark stack: its fields are marked. */
    method TraceOne(ghost mem0: Memory, ghost markOld: bool, o: int, ghost pending: seq<int>, ghost marked: set<int>, ghost roots: set<int>)
      requires Tracing() && IsUsed(mem, o) && o in marked && marked == Marked(mem, markColor) && SameButMarks(mem0, mem)
      requires PendingSet() == Elements(pending) - {o} && (markOld || !IsOld(o))
      requires TraceInv(mem0, Followed(markOld), roots, marked, Elements(pending))
      modifies this`mem, this`pushed, this`markStack, this`markStackPosition, markStack
      ensures Tracing() && SameButMarks(old(mem), mem) && SameButMarks(mem0, mem) && (markStack == old(markStack) || fresh(markStack))
      ensures TraceInv(mem0, old(Followed(markOld)), roots, Marked(mem, markColor), PendingSet())
      ensures marked <= Marked(mem, markColor) <= mem0.Keys
      ensures Marked(mem, markColor) == marked ==> PendingSet() == old(PendingSet())
    {
      hide Layout, RootsIn, SameButMarks, Log, Marked, Distinct, TraceInv;
      ghost var through := Followed(markOld);
      SameKeys(mem0, mem);
      StillUsed(mem, mem0, o);
      SameTargets(mem0, mem, o);
      MarkFields(o);
      SameButMarksTrans(mem0, old(mem), mem);
      Traced(mem0, through, roots, marked, pending, o, Marked(mem, markColor), PendingSet(), old(PendingSet()));
      SameKeys(mem0, mem);
      MarkedInside(mem, markColor);
    }

    /** Where tracing goes on from: every object, or only those that are not old. */
    ghost function Followed(markOld: bool): set<int>
      reads this
    {
      set x | x in mem && (markOld || !IsOld(x))
    }
  }

  lemma PendingMore(marked: set<int>, pending: set<int>, roots: set<int>, marked1: set<int>, pending1: set<int>, more: set<int>,
                    marked2: set<int>, pending2: set<int>)
    requires marked1 == marked + roots && pending1 == pending + (marked1 - marked)
    requires marked2 == marked1 + more && pending2 == pending1 + (marked2 - marked1)
    ensures marked2 == marked + (roots + more) && pending2 == pending + (marked2 - marked)
  {
  }

  function RefsIn(xs: seq<Oop>): set<int> {
    set i | 0 <= i < |xs| && xs[i].Ref? :: xs[i].addr
  }

  function Targets(b: Block): set<int> {
    if b.Used? then {b.mapOop} + RefsIn(b.oops) else {}
  }

  lemma TargetsPoint(b: Block, x: int)
    ensures x in Targets(b) <==> Points(b, x)
  {
    if Points(b, x) && b.mapOop != x {
      var i :| 0 <= i < |b.oops| && b.oops[i] == Ref(x);
    }
  }

  lemma NoRefs(xs: seq<Oop>)
    ensures RefsIn(xs[..0]) == {}
  {
  }

  lemma RefsMore(xs: seq<Oop>, o: Oop)
    ensures RefsIn(xs + [o]) == RefsIn(xs) + Target(o)
  {
    var ys := xs + [o];
    forall x ensures x in RefsIn(ys) <==> x in RefsIn(xs) + Target(o) {
      if x in RefsIn(xs) {
        var i :| 0 <= i < |xs| && xs[i].Ref? && xs[i].addr == x;
        assert ys[i].Ref? && ys[i].addr == x;
      }
      if o.Ref? && x == o.addr {
        assert ys[|xs|].Ref?;
      }
    }
  }

  lemma FieldsSound(mem: Memory, oldStart: int, oldEnd: int, youngStart: int, youngEnd: int, o: int)
    requires Layout(mem, oldStart, oldEnd, youngStart, youngEnd) && IsUsed(mem, o)
    ensures IsUsed(mem, mem[o].mapOop) && forall x | Ref(x) in mem[o].oops :: IsUsed(mem, x)
  {
    assert Points(mem[o], mem[o].mapOop);
    forall x | Ref(x) in mem[o].oops ensures IsUsed(mem, x) {
      assert Points(mem[o], x);
    }
  }

  lemma StillUsed(mem: Memory, mem': Memory, x: int)
    ensures SameButMarks(mem, mem') && IsUsed(mem, x) ==> IsUsed(mem', x)
    ensures SameButMarks(mem', mem) && IsUsed(mem, x) ==> IsUsed(mem', x)
  {
    if SameButMarks(mem', mem) && IsUsed(mem, x) {
      assert x in mem';
      assert SameButMark(mem'[x], mem[x]);
    }
  }

  lemma TargetUsed(mem: Memory, mem': Memory, oops: seq<Oop>, i: nat)
    requires i < |oops| && SameButMarks(mem, mem') && forall x | Ref(x) in oops :: IsUsed(mem, x)
    ensures oops[i].Ref? ==> IsUsed(mem', oops[i].addr)
  {
    assert oops[i] in oops;
    if oops[i].Ref? {
      assert Ref(oops[i].addr) in oops;
      StillUsed(mem, mem', oops[i].addr);
    }
  }

  lemma SameBlock(mem: Memory, mem': Memory, o: int)
    requires SameButMarks(mem, mem') && IsUsed(mem, o)
    ensures IsUsed(mem', o) && mem'[o].oops == mem[o].oops && mem'[o].mapOop == mem[o].mapOop
  {
  }

  lemma SameTargets(mem: Memory, mem': Memory, o: int)
    requires SameButMarks(mem, mem') && IsUsed(mem, o)
    ensures IsUsed(mem', o) && Targets(mem'[o]) == Targets(mem[o])
  {
  }

  lemma SameKeys(mem: Memory, mem': Memory)
    requires SameButMarks(mem, mem')
    ensures mem'.Keys == mem.Keys
  {
  }

  lemma MarkedInside(mem: Memory, color: bool)
    ensures Marked(mem, color) <= mem.Keys
  {
  }

  lemma MarkedIsUsed(mem: Memory, color: bool, x: int)
    ensures x in Marked(mem, color) ==> IsUsed(mem, x)
  {
  }

  /** What one call of Mark does to the pending objects. */
  lemma Grew(mem: Memory, mem': Memory, color: bool, pending: seq<int>, pending': seq<int>, x: int)
    requires IsUsed(mem, x) && Marked(mem', color) == Marked(mem, color) + {x}
    requires pending' == if IsMarked(mem, color, x) then pending else pending + [x]
    ensures Elements(pending') == Elements(pending) + (Marked(mem', color) - Marked(mem, color))
  {
    AlreadyMarked(mem, color, x);
  }

  lemma PopLog(pushed: seq<int>, before: set<int>, marked: set<int>, pending: seq<int>)
    requires Log(pushed, before, marked, pending) && |pending| > 0
    ensures Log(pushed, before, marked, pending[..|pending| - 1])
    ensures pending[|pending| - 1] in marked
    ensures Elements(pending[..|pending| - 1]) == Elements(pending) - {pending[|pending| - 1]}
  {
    var n := |pending| - 1;
    assert pending[n] in pending && pending[n] in Elements(pending);
    forall x ensures x in pending[..n] <==> x in pending && x != pending[n] {
      if x in pending && x != pending[n] {
        var i :| 0 <= i < |pending| && pending[i] == x;
        assert pending[..n][i] == x;
      }
    }
  }

  /** Tracing in progress: what is marked can be reached, and what it refers to is marked once it has been followed. */
  ghost predicate TraceInv(mem: Memory, through: set<int>, roots: set<int>, marked: set<int>, pending: set<int>) {
    && roots <= marked
    && (forall a, y | a in marked && a in through && a !in pending && a in mem && Points(mem[a], y) :: y in marked)
    && (forall x | x in marked :: Reachable(mem, through, roots, x))
  }

  lemma NoElements(pending: seq<int>)
    requires |pending| == 0
    ensures Elements(pending) == {}
  {
  }

  lemma OnTop(pending: seq<int>)
    requires |pending| > 0
    ensures pending[|pending| - 1] in Elements(pending)
  {
  }

  lemma TraceStarts(mem: Memory, through: set<int>, roots: set<int>, pending: set<int>)
    requires roots * through <= pending
    ensures TraceInv(mem, through, roots, roots, pending)
  {
    forall x | x in roots ensures Reachable(mem, through, roots, x) {
      RootReachable(mem, through, roots, x);
    }
  }

  lemma TraceEnds(mem: Memory, through: set<int>, roots: set<int>, marked: set<int>, pending: set<int>)
    requires TraceInv(mem, through, roots, marked, pending) && pending == {}
    ensures forall x :: x in marked <==> Reachable(mem, through, roots, x)
  {
    forall x | Reachable(mem, through, roots, x) ensures x in marked {
      ClosedHoldsReachable(mem, through, roots, marked, x);
    }
  }

  /** The step of the tracing loop at an object whose fields are marked. */
  lemma Traced(mem: Memory, through: set<int>, roots: set<int>, marked: set<int>, pending: seq<int>, o: int, marked': set<int>, pending': set<int>, popped: set<int>)
    requires IsUsed(mem, o) && o in through && o in marked && marked' == marked + Targets(mem[o])
    requires popped == Elements(pending) - {o} && pending' == popped + (marked' - marked)
    requires TraceInv(mem, through, roots, marked, Elements(pending))
    ensures TraceInv(mem, through, roots, marked', pending')
  {
    hide Reachable, Points, Targets;
    forall a, y | a in marked' && a in through && a !in pending' && a in mem && Points(mem[a], y)
      ensures y in marked'
    {
      TargetsPoint(mem[a], y);
    }
    forall x | x in marked' ensures Reachable(mem, through, roots, x) {
      if x !in marked {
        TargetsPoint(mem[o], x);
        ReachableStep(mem, through, roots, o, x);
      }
    }
  }

  lemma NotFollowed(mem: Memory, through: set<int>, roots: set<int>, o: int, marked: set<int>, pending: seq<int>, popped: set<int>)
    requires o !in through && popped == Elements(pending) - {o}
    requires TraceInv(mem, through, roots, marked, Elements(pending))
    ensures TraceInv(mem, through, roots, marked, popped)
  {
  }

  lemma SameMarksRefl(mem: Memory)
    ensures SameButMarks(mem, mem)
  {
  }
}

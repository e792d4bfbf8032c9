/** Programs that allocate, load, store and grow their stack, with collections in between: they do what they would in a heap that is never collected. */
module Mutating {
  import opened Wrappers
  import opened HeapModel
  import opened Marking
  import opened Roots
  import opened Forwarding
  import opened Tenuring
  import opened Collecting
  import opened YoungCollecting
  import opened Survival
  import opened YoungAllocating
  import opened Cloning
  import opened Growing

  /** What a program does, in terms of the cells of the interpreter's stack, a store being seen by the barrier or not; and the collector in between. */
  datatype Op =
    | CloneInto(from: nat, to: nat, hash: nat)
    | Load(from: nat, slot: nat, to: nat)
    | Store(object_: nat, slot: nat, from: nat, seen: bool)
    | SetSmall(to: nat, value: int)
    | CollectGarbage(full: bool)
    | GrowStack(minimum: nat, hash: nat)
    | MoveStackPointer(to: nat)

  /** A heap that is never collected, where objects have numbers; those from `next` on are unused. */
  datatype Ideal = Ideal(mem: Memory, anchor: Anchor, next: int)

  function CellsOf(mem: Memory, a: Anchor): seq<Oop>
    requires HasStack(mem, a.interpreter)
  {
    mem[StackOf(mem, a.interpreter)].oops
  }

  /** The object a cell in use refers to. */
  function ObjectAt(mem: Memory, a: Anchor, k: nat): Option<int>
    requires HasStack(mem, a.interpreter) && a.stackPointer <= |CellsOf(mem, a)|
  {
    if k < a.stackPointer && CellsOf(mem, a)[k].Ref? then Some(CellsOf(mem, a)[k].addr) else None
  }

  datatype Write = Write(target: int, slot: nat, value: Oop)

  /** A cell in use may be written, unless it is the interpreter's own slot for its stack. */
  predicate Writable(a: Anchor, x: int, slot: nat) {
    !(x == a.interpreter && slot == STACK_SLOT)
  }

  /** What a load or store writes; nothing if a cell is not in use, does not refer to an object, or the object has no such slot. */
  function WriteOf(mem: Memory, a: Anchor, op: Op): Option<Write>
    requires HasStack(mem, a.interpreter) && a.stackPointer <= |CellsOf(mem, a)|
  {
    var stack := StackOf(mem, a.interpreter);
    match op
    case Load(from, slot, to) =>
      var x := ObjectAt(mem, a, from);
      if x.Some? && IsUsed(mem, x.value) && slot < |mem[x.value].oops| && to < a.stackPointer && Writable(a, stack, to)
      then Some(Write(stack, to, mem[x.value].oops[slot])) else None
    case Store(object_, slot, from, _) =>
      var x := ObjectAt(mem, a, object_);
      if x.Some? && IsUsed(mem, x.value) && slot < |mem[x.value].oops| && from < a.stackPointer && Writable(a, x.value, slot)
      then Some(Write(x.value, slot, CellsOf(mem, a)[from])) else None
    case SetSmall(to, value) =>
      if to < a.stackPointer && Writable(a, stack, to) then Some(Write(stack, to, Small(value))) else None
    case _ => None
  }

  function Written(mem: Memory, w: Write): Memory
    requires IsUsed(mem, w.target) && w.slot < |mem[w.target].oops|
  {
    mem[w.target := mem[w.target].(oops := mem[w.target].oops[w.slot := w.value])]
  }

  /** The object a clone is made of, if it is made. */
  function CloneOf(mem: Memory, a: Anchor, op: Op): Option<int>
    requires HasStack(mem, a.interpreter) && a.stackPointer <= |CellsOf(mem, a)|
  {
    if op.CloneInto? && op.to < a.stackPointer && Writable(a, StackOf(mem, a.interpreter), op.to) then
      var x := ObjectAt(mem, a, op.from);
      if x.Some? && IsUsed(mem, x.value) then x else None
    else None
  }

  ghost predicate CanStep(s: Ideal) {
    Anchored(s.mem, s.anchor) && Sound(s.mem) && forall k | k in s.mem :: k < s.next
  }

  lemma WriteIsOk(mem: Memory, a: Anchor, op: Op)
    requires Anchored(mem, a)
    ensures var w := WriteOf(mem, a, op); w.Some? ==> IsUsed(mem, w.value.target) && w.value.slot < |mem[w.value.target].oops|
  {
  }

  /** The ideal heap with one more object. */
  function Added(s: Ideal, b: Block): Ideal {
    s.(mem := s.mem[s.next := b], next := s.next + 1)
  }

  /** The interpreter has another stack. */
  function Restacked(mem: Memory, interpreter: int, p: int): Memory
    requires IsUsed(mem, interpreter) && STACK_SLOT < |mem[interpreter].oops|
  {
    mem[interpreter := mem[interpreter].(oops := mem[interpreter].oops[STACK_SLOT := Ref(p)])]
  }

  function IdealGrown(s: Ideal, minimum: nat, hash: nat): Ideal
    requires CanGrow(s.mem, s.anchor)
  {
    var s1 := Added(s, NewStack(s.mem, s.anchor, GrownSize(s.mem, s.anchor, minimum), hash, false));
    if IsUsed(s1.mem, s.anchor.interpreter) && STACK_SLOT < |s1.mem[s.anchor.interpreter].oops|
    then s1.(mem := Restacked(s1.mem, s.anchor.interpreter, s.next)) else s
  }

  /** One step in the heap that is never collected. */
  ghost function IdealStep(s: Ideal, op: Op): Ideal
    requires Anchored(s.mem, s.anchor)
  {
    var x, w := CloneOf(s.mem, s.anchor, op), WriteOf(s.mem, s.anchor, op);
    WriteIsOk(s.mem, s.anchor, op);
    if op.MoveStackPointer? then
      if op.to <= |CellsOf(s.mem, s.anchor)| then s.(anchor := s.anchor.(stackPointer := op.to)) else s
    else if op.GrowStack? then
      if CanGrow(s.mem, s.anchor) then IdealGrown(s, op.minimum, op.hash) else s
    else if x.Some? then
      var stack := StackOf(s.mem, s.anchor.interpreter);
      var mem1 := s.mem[s.next := CopyOf(s.mem[x.value], op.hash, false)];
      if IsUsed(mem1, stack) && op.to < |mem1[stack].oops| then Ideal(Written(mem1, Write(stack, op.to, Ref(s.next))), s.anchor, s.next + 1) else s
    else if w.Some? then s.(mem := Written(s.mem, w.value))
    else s
  }

  /** The program runs; where it would make the special objects or the interpreter unreachable it is not one. */
  ghost predicate IsIdealRun(ss: seq<Ideal>, ops: seq<Op>) {
    && |ss| == |ops| + 1 && (forall i | 0 <= i < |ss| :: Grounded(ss[i].mem, ss[i].anchor))
    && forall i | 0 <= i < |ops| :: ss[i + 1] == IdealStep(ss[i], ops[i])
  }

  // ---------- the heap and the ideal one ----------

  /** The objects in `known` are where place says, with their contents; they refer only to each other. */
  ghost predicate Mirrors(ideal: Memory, known: set<int>, mem: Memory, place: map<int, int>) {
    && (forall x | x in known :: Represented(ideal, mem, place, x))
    && (forall x, y | x in known && y in known && Forward(place, x) == Forward(place, y) :: x == y)
    && (forall x, y | x in known && x in ideal && Points(ideal[x], y) :: y in known)
  }

  ghost predicate Covers(ideal: Memory, a: Anchor, known: set<int>) {
    Anchored(ideal, a) && RootsOf(ideal, a) <= known && a.specialObjects in known && a.interpreter in known
  }

  /** Mirrored, anchored alike. */
  ghost predicate Agrees(s: Ideal, known: set<int>, mem: Memory, v: View, place: map<int, int>) {
    && CanStep(s) && Covers(s.mem, s.anchor, known) && Mirrors(s.mem, known, mem, place) && Anchoring(s.anchor, place) == AnchorOf(v)
  }

  lemma LiveKnown(ideal: Memory, a: Anchor, known: set<int>, mem: Memory, place: map<int, int>, x: int)
    requires Covers(ideal, a, known) && Mirrors(ideal, known, mem, place) && Live(ideal, RootsOf(ideal, a), x)
    ensures x in known
  {
    hide Represented;
    IsLive(ideal, RootsOf(ideal, a), x);
    ClosedHoldsReachable(ideal, ideal.Keys, RootsOf(ideal, a), known, x);
  }

  lemma MirrorRepresents(ideal: Memory, a: Anchor, known: set<int>, mem: Memory, place: map<int, int>)
    requires Covers(ideal, a, known) && Mirrors(ideal, known, mem, place)
    ensures Represents(ideal, RootsOf(ideal, a), mem, place)
  {
    hide Represented, Live, RootsOf;
    forall x | Live(ideal, RootsOf(ideal, a), x) ensures x in known {
      LiveKnown(ideal, a, known, mem, place, x);
    }
  }

  /** The live ones among what is known. */
  ghost function LiveSet(ideal: Memory, a: Anchor): set<int>
    requires Anchored(ideal, a)
  {
    set x | x in ideal && Live(ideal, RootsOf(ideal, a), x)
  }

  lemma RepresentsMirror(ideal: Memory, a: Anchor, mem: Memory, place: map<int, int>)
    requires Grounded(ideal, a) && Sound(ideal) && Represents(ideal, RootsOf(ideal, a), mem, place)
    ensures Covers(ideal, a, LiveSet(ideal, a)) && Mirrors(ideal, LiveSet(ideal, a), mem, place)
  {
    hide Represented, Live, RootsOf, Points;
    var known := LiveSet(ideal, a);
    forall x | Live(ideal, RootsOf(ideal, a), x) ensures x in known {
      IsRepresented(ideal, RootsOf(ideal, a), mem, place, x);
    }
    forall r | r in RootsOf(ideal, a) ensures r in known {
      LiveRoot(ideal, RootsOf(ideal, a), r);
    }
    forall x, y | x in known && x in ideal && Points(ideal[x], y) ensures y in known {
      LiveClosed(ideal, RootsOf(ideal, a), x, y);
    }
  }

  /** A collection keeps the heaps in agreement, on what is live. */
  lemma SurvivalAgrees(s: Ideal, known: set<int>, v: View, mem: Memory, place: map<int, int>, v': View, mem': Memory, fwd: map<int, int>)
    requires Agrees(s, known, mem, v, place) && Grounded(s.mem, s.anchor) && RootsStay(v, mem) && InBounds(v, mem)
    requires Survived(v, mem, mem', fwd) && AnchorOf(v') == AnchorOf(v)
    ensures Agrees(s, LiveSet(s.mem, s.anchor), mem', v', Then(place, fwd))
    ensures Represents(s.mem, RootsOf(s.mem, s.anchor), mem', Then(place, fwd))
    ensures forall x | x in LiveSet(s.mem, s.anchor) :: Live(mem, FullRoots(v, mem), Forward(place, x))
  {
    hide Live, RootsOf, Represents, RootsStay, InBounds, FullRoots, Mirrors, Grounded, RootsIn;
    MirrorRepresents(s.mem, s.anchor, known, mem, place);
    RootsGround(v, mem);
    GroundedIs(mem, AnchorOf(v));
    SurvivesBoth(s.mem, s.anchor, mem, place, mem', fwd);
    RepresentsMirror(s.mem, s.anchor, mem', Then(place, fwd));
    ForwardThen(place, fwd, s.anchor.specialObjects);
    ForwardThen(place, fwd, s.anchor.interpreter);
    forall x | x in LiveSet(s.mem, s.anchor) ensures Live(mem, FullRoots(v, mem), Forward(place, x)) {
      LiveCarried(s.mem, s.anchor, mem, place, x);
    }
  }

  lemma GroundedIs(mem: Memory, a: Anchor)
    requires Grounded(mem, a)
    ensures Anchored(mem, a)
  {
  }

  // ---------- writing ----------

  function MoveWrite(place: map<int, int>, w: Write): Write {
    Write(Forward(place, w.target), w.slot, MoveOop(place, w.value))
  }

  /** The stack and what its cells refer to is known, and is the same in both heaps. */
  lemma SameCells(s: Ideal, known: set<int>, mem: Memory, v: View, place: map<int, int>)
    requires Agrees(s, known, mem, v, place)
    ensures var stack := StackOf(s.mem, s.anchor.interpreter);
      && stack in known && HasStack(mem, v.interpreter) && StackOf(mem, v.interpreter) == Forward(place, stack)
      && CellsOf(mem, AnchorOf(v)) == MoveOops(place, CellsOf(s.mem, s.anchor)) && v.stackPointer <= |CellsOf(mem, AnchorOf(v))|
      && forall k | 0 <= k < |CellsOf(s.mem, s.anchor)| && CellsOf(s.mem, s.anchor)[k].Ref? :: CellsOf(s.mem, s.anchor)[k].addr in known
  {
    var stack := StackOf(s.mem, s.anchor.interpreter);
    hide RootsOf, Sound;
    assert Ref(stack) in s.mem[s.anchor.interpreter].oops;
    assert Points(s.mem[s.anchor.interpreter], stack);
    assert Represented(s.mem, mem, place, s.anchor.interpreter) && Represented(s.mem, mem, place, stack);
    assert MoveOops(place, s.mem[s.anchor.interpreter].oops)[STACK_SLOT] == Ref(Forward(place, stack));
    forall k | 0 <= k < |CellsOf(s.mem, s.anchor)| && CellsOf(s.mem, s.anchor)[k].Ref? ensures CellsOf(s.mem, s.anchor)[k].addr in known {
      assert CellsOf(s.mem, s.anchor)[k] in s.mem[stack].oops;
      assert Points(s.mem[stack], CellsOf(s.mem, s.anchor)[k].addr);
    }
  }

  lemma SameObjects(s: Ideal, known: set<int>, mem: Memory, v: View, place: map<int, int>)
    requires Agrees(s, known, mem, v, place) && HasStack(mem, v.interpreter) && v.stackPointer <= |CellsOf(mem, AnchorOf(v))|
    ensures forall k: nat :: ObjectAt(s.mem, s.anchor, k).Some? ==> ObjectAt(s.mem, s.anchor, k).value in known
    ensures forall k: nat :: ObjectAt(mem, AnchorOf(v), k)
              == (if ObjectAt(s.mem, s.anchor, k).Some? then Some(Forward(place, ObjectAt(s.mem, s.anchor, k).value)) else None)
  {
    SameCells(s, known, mem, v, place);
    hide RootsOf, Sound, Points, Mirrors;
    var cells := CellsOf(s.mem, s.anchor);
    forall k: nat
      ensures ObjectAt(s.mem, s.anchor, k).Some? ==> ObjectAt(s.mem, s.anchor, k).value in known
      ensures ObjectAt(mem, AnchorOf(v), k)
           == (if ObjectAt(s.mem, s.anchor, k).Some? then Some(Forward(place, ObjectAt(s.mem, s.anchor, k).value)) else None)
    {
      if k < s.anchor.stackPointer {
        assert MoveOops(place, cells)[k] == MoveOop(place, cells[k]);
      }
    }
  }

  /** Both heaps write the same. */
  lemma SameWrite(s: Ideal, known: set<int>, mem: Memory, v: View, place: map<int, int>, op: Op)
    requires Agrees(s, known, mem, v, place) && HasStack(mem, v.interpreter) && v.stackPointer <= |CellsOf(mem, AnchorOf(v))|
    ensures var w, w' := WriteOf(s.mem, s.anchor, op), WriteOf(mem, AnchorOf(v), op);
      w' == (if w.Some? then Some(MoveWrite(place, w.value)) else None)
      && (w.Some? ==> w.value.target in known && (w.value.value.Ref? ==> w.value.value.addr in known) && Writable(s.anchor, w.value.target, w.value.slot))
  {
    hide RootsOf, Sound, Points, Mirrors;
    SameCells(s, known, mem, v, place);
    var stack := StackOf(s.mem, s.anchor.interpreter);
    var w := WriteOf(s.mem, s.anchor, op);
    SameObjects(s, known, mem, v, place);
    SameWritable(s, known, mem, place);
    if op.Load? && ObjectAt(s.mem, s.anchor, op.from).Some? {
      SlotKnown(s.mem, known, mem, place, ObjectAt(s.mem, s.anchor, op.from).value, op.slot);
    }
    if op.Store? && ObjectAt(s.mem, s.anchor, op.object_).Some? {
      SlotKnown(s.mem, known, mem, place, ObjectAt(s.mem, s.anchor, op.object_).value, op.slot);
    }
  }

  lemma SameWritable(s: Ideal, known: set<int>, mem: Memory, place: map<int, int>)
    requires Mirrors(s.mem, known, mem, place) && s.anchor.interpreter in known
    ensures forall x, slot | x in known :: Writable(Anchoring(s.anchor, place), Forward(place, x), slot) <==> Writable(s.anchor, x, slot)
  {
    hide Represented;
  }

  lemma SlotKnown(ideal: Memory, known: set<int>, mem: Memory, place: map<int, int>, x: int, slot: nat)
    requires Mirrors(ideal, known, mem, place) && x in known
    ensures IsUsed(ideal, x) && IsUsed(mem, Forward(place, x)) && |mem[Forward(place, x)].oops| == |ideal[x].oops|
    ensures slot < |ideal[x].oops| ==> mem[Forward(place, x)].oops[slot] == MoveOop(place, ideal[x].oops[slot])
                                       && (ideal[x].oops[slot].Ref? ==> ideal[x].oops[slot].addr in known)
  {
    assert Represented(ideal, mem, place, x);
    if slot < |ideal[x].oops| && ideal[x].oops[slot].Ref? {
      assert ideal[x].oops[slot] in ideal[x].oops;
      assert Points(ideal[x], ideal[x].oops[slot].addr);
    }
  }

  /** Both heaps clone the same. */
  lemma SameClone(s: Ideal, known: set<int>, mem: Memory, v: View, place: map<int, int>, op: Op)
    requires Agrees(s, known, mem, v, place) && HasStack(mem, v.interpreter) && v.stackPointer <= |CellsOf(mem, AnchorOf(v))|
    ensures var x := CloneOf(s.mem, s.anchor, op); CloneOf(mem, AnchorOf(v), op) == (if x.Some? then Some(Forward(place, x.value)) else None)
    ensures var x := CloneOf(s.mem, s.anchor, op); x.Some? ==> x.value in known && Represented(s.mem, mem, place, x.value)
  {
    SameCells(s, known, mem, v, place);
    SameObjects(s, known, mem, v, place);
    SameWritable(s, known, mem, place);
    hide RootsOf, Sound, Points;
    if op.CloneInto? && ObjectAt(s.mem, s.anchor, op.from).Some? {
      SlotKnown(s.mem, known, mem, place, ObjectAt(s.mem, s.anchor, op.from).value, 0);
    }
  }

  /** Any write of known objects. */
  ghost predicate Possible(s: Ideal, known: set<int>, w: Write) {
    && w.target in known && IsUsed(s.mem, w.target) && w.slot < |s.mem[w.target].oops|
    && (w.value.Ref? ==> w.value.addr in known)
  }

  /** One that leaves the interpreter's slot for its stack alone. */
  ghost predicate Allowed(s: Ideal, known: set<int>, w: Write) {
    Possible(s, known, w) && Writable(s.anchor, w.target, w.slot)
  }

  lemma WrittenPoints(mem: Memory, w: Write, k: int, y: int)
    requires IsUsed(mem, w.target) && w.slot < |mem[w.target].oops| && k in mem && Points(Written(mem, w)[k], y)
    ensures Points(mem[k], y) || (k == w.target && w.value == Ref(y))
  {
  }

  lemma WrittenAnchored(s: Ideal, known: set<int>, w: Write)
    requires Anchored(s.mem, s.anchor) && Allowed(s, known, w)
    ensures Anchored(Written(s.mem, w), s.anchor)
    ensures StackOf(Written(s.mem, w), s.anchor.interpreter) == StackOf(s.mem, s.anchor.interpreter)
  {
  }

  /** Whatever is known holds the roots, if it holds the anchor and what is pinned. */
  lemma RootsKnown(mem: Memory, a: Anchor, known: set<int>)
    requires Anchored(mem, a) && a.specialObjects in known && a.interpreter in known && forall x | IsPinned(mem, x) :: x in known
    requires forall x, y | x in known && x in mem && Points(mem[x], y) :: y in known
    ensures Covers(mem, a, known)
  {
    var stack := StackOf(mem, a.interpreter);
    assert Ref(stack) in mem[a.interpreter].oops && Points(mem[a.interpreter], stack);
    forall r | r in RootsOf(mem, a) ensures r in known {
      if !IsPinned(mem, r) {
        var x := if r in RefsIn(mem[a.specialObjects].oops) then a.specialObjects else stack;
        assert Ref(r) in mem[x].oops && Points(mem[x], r);
      }
    }
  }

  lemma PinsKnown(mem: Memory, a: Anchor, known: set<int>)
    requires Covers(mem, a, known)
    ensures forall x | IsPinned(mem, x) :: x in known
  {
  }

  lemma WrittenPins(mem: Memory, w: Write)
    requires IsUsed(mem, w.target) && w.slot < |mem[w.target].oops|
    ensures forall x | IsPinned(Written(mem, w), x) :: IsPinned(mem, x)
  {
  }

  lemma WrittenSound(s: Ideal, known: set<int>, w: Write, mem: Memory, place: map<int, int>)
    requires CanStep(s) && Possible(s, known, w) && Mirrors(s.mem, known, mem, place)
    ensures Sound(Written(s.mem, w))
  {
    if w.value.Ref? {
      assert Represented(s.mem, mem, place, w.value.addr);
    }
    hide Points, Represented;
    StoredSound(s.mem, w.target, w.slot, w.value);
  }

  lemma WrittenMirrors(s: Ideal, known: set<int>, w: Write, mem: Memory, place: map<int, int>)
    requires Possible(s, known, w) && Mirrors(s.mem, known, mem, place)
    ensures Represented(s.mem, mem, place, w.target)
    ensures Mirrors(Written(s.mem, w), known, Written(mem, MoveWrite(place, w)), place)
  {
    var w', ideal' := MoveWrite(place, w), Written(s.mem, w);
    assert Represented(s.mem, mem, place, w.target);
    var mem' := Written(mem, w');
    forall x | x in known ensures Represented(ideal', mem', place, x) {
      assert Represented(s.mem, mem, place, x);
      if x == w.target {
        MovedStore(place, s.mem[x], w.slot, w.value);
      }
    }
    hide Points, Represented, Moved;
    forall x, y | x in known && x in ideal' && Points(ideal'[x], y) ensures y in known {
      WrittenPoints(s.mem, w, x, y);
    }
  }

  lemma MovedStore(place: map<int, int>, b: Block, i: nat, o: Oop)
    requires b.Used? && i < |b.oops|
    ensures Moved(place, b.(oops := b.oops[i := o])) == b.(mapOop := Forward(place, b.mapOop), oops := MoveOops(place, b.oops)[i := MoveOop(place, o)])
  {
    assert MoveOops(place, b.oops[i := o]) == MoveOops(place, b.oops)[i := MoveOop(place, o)];
  }

  lemma WriteAgrees(s: Ideal, known: set<int>, w: Write, mem: Memory, v: View, place: map<int, int>)
    requires Agrees(s, known, mem, v, place) && Allowed(s, known, w)
    ensures Represented(s.mem, mem, place, w.target)
    ensures Agrees(s.(mem := Written(s.mem, w)), known, Written(mem, MoveWrite(place, w)), v, place)
  {
    WrittenAnchored(s, known, w);
    PossibleAgrees(s, known, w, mem, v, place);
  }

  /** A write that leaves a stack that is long enough. */
  lemma PossibleAgrees(s: Ideal, known: set<int>, w: Write, mem: Memory, v: View, place: map<int, int>)
    requires Agrees(s, known, mem, v, place) && Possible(s, known, w) && Anchored(Written(s.mem, w), s.anchor)
    ensures Represented(s.mem, mem, place, w.target)
    ensures Agrees(s.(mem := Written(s.mem, w)), known, Written(mem, MoveWrite(place, w)), v, place)
  {
    WrittenMirrors(s, known, w, mem, place);
    WrittenSound(s, known, w, mem, place);
    PinsKnown(s.mem, s.anchor, known);
    WrittenPins(s.mem, w);
    hide RootsOf, Represented, Sound, RootsIn;
    RootsKnown(Written(s.mem, w), s.anchor, known);
  }

  /** Another stack, that reaches to the stack pointer. */
  lemma RestackAgrees(s: Ideal, known: set<int>, n: int, mem: Memory, v: View, place: map<int, int>)
    requires Agrees(s, known, mem, v, place) && n in known && IsUsed(s.mem, n) && s.anchor.stackPointer <= |s.mem[n].oops| && n != s.anchor.interpreter
    ensures IsUsed(s.mem, s.anchor.interpreter) && STACK_SLOT < |s.mem[s.anchor.interpreter].oops|
    ensures IsUsed(mem, v.interpreter) && STACK_SLOT < |mem[v.interpreter].oops|
    ensures Agrees(s.(mem := Restacked(s.mem, s.anchor.interpreter, n)), known, Restacked(mem, v.interpreter, Forward(place, n)), v, place)
  {
    hide Represented, RootsOf, Sound, Points;
    RestackAnchored(s, known, n);
    InterpreterThere(s, known, mem, v, place);
    PossibleAgrees(s, known, Write(s.anchor.interpreter, STACK_SLOT, Ref(n)), mem, v, place);
  }

  lemma RestackAnchored(s: Ideal, known: set<int>, n: int)
    requires CanStep(s) && n in known && s.anchor.interpreter in known && IsUsed(s.mem, n) && s.anchor.stackPointer <= |s.mem[n].oops|
    requires n != s.anchor.interpreter
    ensures var w := Write(s.anchor.interpreter, STACK_SLOT, Ref(n));
      && Possible(s, known, w) && Written(s.mem, w) == Restacked(s.mem, s.anchor.interpreter, n) && Anchored(Written(s.mem, w), s.anchor)
  {
  }

  lemma InterpreterThere(s: Ideal, known: set<int>, mem: Memory, v: View, place: map<int, int>)
    requires Agrees(s, known, mem, v, place)
    ensures IsUsed(mem, v.interpreter) && STACK_SLOT < |mem[v.interpreter].oops| && Forward(place, s.anchor.interpreter) == v.interpreter
  {
    assert Represented(s.mem, mem, place, s.anchor.interpreter);
  }

  /** The stack pointer elsewhere in the stack. */
  lemma PointerAgrees(s: Ideal, known: set<int>, to: nat, mem: Memory, v: View, place: map<int, int>)
    requires Agrees(s, known, mem, v, place) && to <= |CellsOf(s.mem, s.anchor)|
    ensures Agrees(s.(anchor := s.anchor.(stackPointer := to)), known, mem, v.(stackPointer := to), place)
  {
    PinsKnown(s.mem, s.anchor, known);
    hide RootsOf, Represented, Sound;
    RootsKnown(s.mem, s.anchor.(stackPointer := to), known);
  }

  // ---------- a new object ----------

  lemma AddedStep(s: Ideal, b: Block)
    requires CanStep(s) && b.Used? && b.pins == 0 && forall y | Points(b, y) :: IsUsed(s.mem, y)
    ensures CanStep(Added(s, b))
    ensures StackOf(Added(s, b).mem, s.anchor.interpreter) == StackOf(s.mem, s.anchor.interpreter)
    ensures RootsOf(Added(s, b).mem, s.anchor) == RootsOf(s.mem, s.anchor)
  {
    var ideal' := Added(s, b).mem;
    forall k, y | k in ideal' && Points(ideal'[k], y) ensures IsUsed(ideal', y) {
      if k != s.next {
        assert Points(s.mem[k], y);
      }
      assert IsUsed(s.mem, y);
    }
    forall r ensures r in RootsOf(ideal', s.anchor) <==> r in RootsOf(s.mem, s.anchor) {
    }
  }

  lemma MovedSame(place: map<int, int>, place': map<int, int>, b: Block, n: int)
    requires b.Used? && !Points(b, n) && forall y | y != n :: Forward(place', y) == Forward(place, y)
    ensures Moved(place', b) == Moved(place, b)
  {
    forall i | 0 <= i < |b.oops| ensures MoveOop(place', b.oops[i]) == MoveOop(place, b.oops[i]) {
      assert b.oops[i] in b.oops;
    }
  }

  lemma NotNext(s: Ideal, x: int)
    requires CanStep(s) && IsUsed(s.mem, x)
    ensures !Points(s.mem[x], s.next)
  {
    assert Points(s.mem[x], s.next) ==> IsUsed(s.mem, s.next);
  }

  lemma AddedMirrors(s: Ideal, b: Block, mem: Memory, place: map<int, int>, p: int, known: set<int>)
    requires CanStep(s) && Mirrors(s.mem, known, mem, place) && b.Used? && forall y | Points(b, y) :: y in known
    requires p in mem && SameButMark(Moved(place, b), mem[p]) && forall y | y in known :: Forward(place, y) != p
    ensures Mirrors(Added(s, b).mem, known + {s.next}, mem, place[s.next := p])
  {
    var ideal', place', known' := Added(s, b).mem, place[s.next := p], known + {s.next};
    forall y | y in known ensures y in s.mem && s.mem[y].Used? && y != s.next && Represented(ideal', mem, place', y) {
      assert Represented(s.mem, mem, place, y);
      NotNext(s, y);
      MovedSame(place, place', s.mem[y], s.next);
    }
    MovedSame(place, place', b, s.next);
    assert Represented(ideal', mem, place', s.next);
    hide Represented;
    forall k, y | k in known' && k in ideal' && Points(ideal'[k], y) ensures y in known' {
      if k != s.next {
        assert Points(s.mem[k], y);
      }
    }
  }

  /** With a new object, both heaps agree again. */
  lemma AddAgrees(s: Ideal, b: Block, mem: Memory, v: View, place: map<int, int>, p: int, known: set<int>)
    requires Agrees(s, known, mem, v, place) && b.Used? && b.pins == 0 && forall y | Points(b, y) :: y in known
    requires p in mem && SameButMark(Moved(place, b), mem[p]) && forall y | y in known :: Forward(place, y) != p
    ensures Agrees(Added(s, b), known + {s.next}, mem, v, place[s.next := p])
    ensures StackOf(Added(s, b).mem, s.anchor.interpreter) == StackOf(s.mem, s.anchor.interpreter)
  {
    hide Represented, RootsOf, Mirrors, CanStep, Points, SameButMark, Moved, RootsIn;
    KnownUsed(s.mem, known, mem, place);
    AddedMirrors(s, b, mem, place, p, known);
    AddedStep(s, b);
    AddedCovers(s, b, known);
  }

  lemma KnownUsed(ideal: Memory, known: set<int>, mem: Memory, place: map<int, int>)
    requires Mirrors(ideal, known, mem, place)
    ensures forall x | x in known :: IsUsed(ideal, x)
  {
    forall x | x in known ensures IsUsed(ideal, x) {
      assert Represented(ideal, mem, place, x);
    }
  }

  lemma AddedCovers(s: Ideal, b: Block, known: set<int>)
    requires CanStep(s) && Covers(s.mem, s.anchor, known) && (forall x | x in known :: IsUsed(s.mem, x)) && CanStep(Added(s, b))
    requires RootsOf(Added(s, b).mem, s.anchor) == RootsOf(s.mem, s.anchor)
    ensures Covers(Added(s, b).mem, s.anchor, known + {s.next}) && s.next !in known
  {
    hide RootsOf, Sound;
  }

  /** The ideal heap with the copy, before a cell refers to it. */
  function Copied(s: Ideal, x: int, hash: nat): Ideal
    requires IsUsed(s.mem, x)
  {
    Added(s, CopyOf(s.mem[x], hash, false))
  }

  /** With the copy, both heaps agree again. */
  lemma CopyAgrees(s: Ideal, x: int, hash: nat, mem: Memory, v: View, place: map<int, int>, p: int, color: bool, known: set<int>)
    requires Agrees(s, known, mem, v, place) && x in known && Represented(s.mem, mem, place, x)
    requires p in mem && mem[p] == CopyOf(mem[Forward(place, x)], hash, color) && forall y | y in known :: Forward(place, y) != p
    ensures Agrees(Copied(s, x, hash), known + {s.next}, mem, v, place[s.next := p])
    ensures StackOf(Copied(s, x, hash).mem, s.anchor.interpreter) == StackOf(s.mem, s.anchor.interpreter)
  {
    var b := CopyOf(s.mem[x], hash, false);
    forall y | Points(b, y) ensures y in known {
      assert Points(s.mem[x], y);
    }
    assert SameButMark(Moved(place, b), mem[p]);
    hide Represented, RootsOf, Sound, Points, SameButMark, Moved, CopyOf;
    AddAgrees(s, b, mem, v, place, p, known);
  }

  /** The new stack is the same in both heaps. */
  lemma NewStackMoved(s: Ideal, known: set<int>, mem: Memory, v: View, place: map<int, int>, size: nat, hash: nat, color: bool)
    requires Agrees(s, known, mem, v, place) && CanGrow(s.mem, s.anchor) && s.anchor.stackPointer <= size
    ensures CanGrow(mem, AnchorOf(v)) && v.stackPointer <= size
    ensures SameButMark(Moved(place, NewStack(s.mem, s.anchor, size, hash, false)), NewStack(mem, AnchorOf(v), size, hash, color))
    ensures forall y | Points(NewStack(s.mem, s.anchor, size, hash, false), y) :: y in known
  {
    StackKnown(s, known, mem, v, place);
    var b, c := NewStack(s.mem, s.anchor, size, hash, false), NewStack(mem, AnchorOf(v), size, hash, color);
    forall i | 0 <= i < |b.oops| ensures MoveOop(place, b.oops[i]) == c.oops[i] {
      if i < s.anchor.stackPointer {
        assert MoveOops(place, s.mem[StackOf(s.mem, s.anchor.interpreter)].oops)[i] == MoveOop(place, b.oops[i]);
      } else {
        assert MoveOops(place, s.mem[s.anchor.specialObjects].oops)[SPECIAL_OOP_NIL] == MoveOop(place, s.mem[s.anchor.specialObjects].oops[SPECIAL_OOP_NIL]);
      }
    }
    assert MoveOops(place, b.oops) == c.oops;
    hide NewStack, Points, Moved, RootsOf, Sound;
    forall y | Points(b, y) ensures y in known {
      NewStackPoints(s.mem, s.anchor, size, hash, false, y);
    }
  }

  /** What the new stack is made of is known, and both heaps can grow their stacks or neither. */
  lemma StackKnown(s: Ideal, known: set<int>, mem: Memory, v: View, place: map<int, int>)
    requires Agrees(s, known, mem, v, place)
    ensures CanGrow(mem, AnchorOf(v)) <==> CanGrow(s.mem, s.anchor)
    ensures CanGrow(s.mem, s.anchor) ==>
      var xs, stack := s.mem[s.anchor.specialObjects].oops, StackOf(s.mem, s.anchor.interpreter);
      var proto := xs[SPECIAL_OOP_ARRAY_PROTO].addr;
      && s.anchor.specialObjects in known && stack in known && proto in known
      && mem[v.specialObjects].oops == MoveOops(place, xs) && StackOf(mem, v.interpreter) == Forward(place, stack)
      && mem[Forward(place, stack)].oops == MoveOops(place, s.mem[stack].oops)
      && mem[v.specialObjects].oops[SPECIAL_OOP_ARRAY_PROTO] == Ref(Forward(place, proto))
      && mem[Forward(place, proto)].mapOop == Forward(place, s.mem[proto].mapOop)
  {
    SameCells(s, known, mem, v, place);
    var sp := s.anchor.specialObjects;
    assert Represented(s.mem, mem, place, sp);
    var xs := s.mem[sp].oops;
    assert mem[v.specialObjects].oops == MoveOops(place, xs);
    if SPECIAL_OOP_ARRAY_PROTO < |xs| && xs[SPECIAL_OOP_ARRAY_PROTO].Ref? {
      var proto := xs[SPECIAL_OOP_ARRAY_PROTO].addr;
      assert xs[SPECIAL_OOP_ARRAY_PROTO] in xs && Points(s.mem[sp], proto);
      assert Represented(s.mem, mem, place, proto);
      assert MoveOops(place, xs)[SPECIAL_OOP_ARRAY_PROTO] == Ref(Forward(place, proto));
    }
  }

  // ---------- programs ----------

  /** What is live in the ideal heap is where place says, with its contents. */
  ghost predicate Follows(s: Ideal, h: Heap, place: map<int, int>)
    reads h
  {
    CanStep(s) && Represents(s.mem, RootsOf(s.mem, s.anchor), h.mem, place) && Anchoring(s.anchor, place) == AnchorOf(ViewOf(h))
  }

  /** A heap may be its own ideal. */
  lemma FollowsItself(h: Heap, next: int)
    requires Usable(h) && forall k | k in h.mem :: k < next
    ensures Follows(Ideal(h.mem, HereAnchor(h), next), h, map[]) && Grounded(h.mem, HereAnchor(h))
  {
    hide Live;
    var v := ViewOf(h);
    UsableBounds(h);
    RootsGround(v, h.mem);
    RootsUsed(v, h.mem);
    Unmoved(h.mem, FullRoots(v, h.mem));
  }

  ghost predicate AgreesWith(s: Ideal, known: set<int>, h: Heap, place: map<int, int>)
    reads h
  {
    Agrees(s, known, h.mem, ViewOf(h), place)
  }

  lemma FollowsAgrees(s: Ideal, h: Heap, place: map<int, int>)
    requires Follows(s, h, place) && Grounded(s.mem, s.anchor)
    ensures AgreesWith(s, LiveSet(s.mem, s.anchor), h, place)
  {
    hide Live, RootsOf, Represents, Mirrors;
    RepresentsMirror(s.mem, s.anchor, h.mem, place);
  }

  lemma AgreesFollows(s: Ideal, known: set<int>, h: Heap, place: map<int, int>)
    requires AgreesWith(s, known, h, place)
    ensures Follows(s, h, place)
  {
    hide Live, RootsOf, Represents, Mirrors;
    MirrorRepresents(s.mem, s.anchor, known, h.mem, place);
  }

  /** The heap is usable while its ideal is grounded. */
  lemma StillUsable(s: Ideal, known: set<int>, h: Heap, place: map<int, int>)
    requires AgreesWith(s, known, h, place) && Grounded(s.mem, s.anchor)
    requires h.Valid() && OnlyOld(h) && CursorsOk(h) && h.markStack.Length > 0
    requires h.IsOld(h.specialObjects) && h.IsOld(h.interpreter)
    ensures Usable(h)
  {
    hide Live, RootsOf, Represents, Mirrors, CanStep, OnlyOldIn, Space;
    MirrorRepresents(s.mem, s.anchor, known, h.mem, place);
    GroundedCarried(s.mem, s.anchor, h.mem, place);
    FullRootsAre(ViewOf(h), h.mem);
  }

  lemma UsableOld(h: Heap)
    requires Usable(h)
    ensures h.Valid() && OnlyOld(h) && CursorsOk(h) && h.markStack.Length > 0 && HasRoots(ViewOf(h), h.mem) && RootsStay(ViewOf(h), h.mem)
    ensures h.IsOld(h.specialObjects) && h.IsOld(h.interpreter)
  {
  }

  lemma RootsCells(mem: Memory, v: View)
    requires HasRoots(v, mem)
    ensures HasStack(mem, v.interpreter) && v.stackPointer <= |CellsOf(mem, AnchorOf(v))|
  {
  }

  /** A write of known objects may be made in the heap, too. */
  lemma WriteThere(s: Ideal, known: set<int>, w: Write, h: Heap, place: map<int, int>)
    requires AgreesWith(s, known, h, place) && Allowed(s, known, w)
    ensures var w' := MoveWrite(place, w); IsUsed(h.mem, w'.target) && w'.slot < |h.mem[w'.target].oops|
                                           && (w'.value.Ref? ==> IsUsed(h.mem, w'.value.addr)) && !(w'.target == h.interpreter && w'.slot == STACK_SLOT)
  {
    hide RootsOf, Sound, Points;
    SameWritable(s, known, h.mem, place);
    SlotKnown(s.mem, known, h.mem, place, w.target, w.slot);
    if w.value.Ref? {
      SlotKnown(s.mem, known, h.mem, place, w.value.addr, 0);
    }
  }

  method WriteBoth(h: Heap, w': Write, seen: bool, ghost s: Ideal, ghost known: set<int>, ghost w: Write, ghost place: map<int, int>)
    requires Usable(h) && AgreesWith(s, known, h, place) && Allowed(s, known, w) && w' == MoveWrite(place, w)
    requires Grounded(Written(s.mem, w), s.anchor)
    modifies h`mem, h`remembered
    ensures Usable(h) && AgreesWith(s.(mem := Written(s.mem, w)), known, h, place)
    ensures seen && old(RememberedOk(h)) ==> RememberedOk(h)
  {
    hide Grounded, Agrees, Allowed, Usable, RememberedIn, OnlyOldIn, RootsIn, RootsStay, Layout;
    WriteThere(s, known, w, h, place);
    WriteAgrees(s, known, w, h.mem, ViewOf(h), place);
    UsableOld(h);
    AllowedIs(s, known, w);
    if seen {
      StoreWord(h, w'.target, w'.slot, w'.value);
    } else {
      StoreUnseen(h, w'.target, w'.slot, w'.value);
    }
    StillUsable(s.(mem := Written(s.mem, w)), known, h, place);
  }

  lemma AllowedIs(s: Ideal, known: set<int>, w: Write)
    requires Allowed(s, known, w)
    ensures IsUsed(s.mem, w.target) && w.slot < |s.mem[w.target].oops|
  {
  }

  /** An operation that only writes. */
  predicate Writes(op: Op) {
    op.Load? || op.Store? || op.SetSmall?
  }

  /** One that leaves nothing unnoticed that was noticed. */
  predicate Careful(op: Op) {
    op.Load? || (op.Store? && op.seen) || op.SetSmall? || op.CollectGarbage? || op.MoveStackPointer?
  }

  /** One that may have to collect young objects. */
  predicate MayScavenge(op: Op) {
    op.CloneInto? || op.GrowStack? || (op.CollectGarbage? && !op.full)
  }

  /** A load or a store, or nothing. */
  method DoWrite(h: Heap, op: Op, ghost s: Ideal, ghost known: set<int>, ghost place: map<int, int>)
    requires Usable(h) && AgreesWith(s, known, h, place) && Writes(op)
    requires Grounded(IdealStep(s, op).mem, s.anchor)
    modifies h`mem, h`remembered
    ensures Usable(h) && AgreesWith(IdealStep(s, op), known, h, place)
    ensures Careful(op) && old(RememberedOk(h)) ==> RememberedOk(h)
  {
    hide Grounded, Agrees, Allowed, Usable, RememberedIn, OnlyOldIn, RootsIn, RootsStay, Layout, WriteOf;
    UsableOld(h);
    RootsCells(h.mem, ViewOf(h));
    ghost var w0 := WritesBoth(s, known, h, place, op);
    var w := WriteOf(h.mem, HereAnchor(h), op);
    if w.Some? {
      WriteBoth(h, w.value, !op.Store? || op.seen, s, known, w0.value, place);
    }
  }

  /** What an operation writes is allowed, and both heaps write it. */
  lemma WritesBoth(s: Ideal, known: set<int>, h: Heap, place: map<int, int>, op: Op) returns (w: Option<Write>)
    requires AgreesWith(s, known, h, place) && Writes(op) && HasStack(h.mem, h.interpreter) && h.stackPointer <= |CellsOf(h.mem, HereAnchor(h))|
    ensures Anchored(s.mem, s.anchor)
    ensures w.Some? ==> Allowed(s, known, w.value) && IdealStep(s, op) == s.(mem := Written(s.mem, w.value))
    ensures w.None? ==> IdealStep(s, op) == s
    ensures WriteOf(h.mem, HereAnchor(h), op) == (if w.Some? then Some(MoveWrite(place, w.value)) else None)
  {
    hide Grounded, Mirrors, RootsOf, Sound, WriteOf;
    w := WriteOf(s.mem, s.anchor, op);
    SameWrite(s, known, h.mem, ViewOf(h), place, op);
    WriteIsOk(s.mem, s.anchor, op);
  }

  method DoCollect(h: Heap, full: bool, ghost s: Ideal, ghost known: set<int>, ghost place: map<int, int>) returns (ghost place': map<int, int>)
    requires Usable(h) && (RememberedOk(h) || full) && AgreesWith(s, known, h, place) && Grounded(s.mem, s.anchor)
    requires h.memoryOldSize + h.memoryYoungSize < h.memoryOldLimit
    modifies h`mem, h`markColor, h`markStack, h`markStackPosition, h`pushed, h`before, h.markStack
    modifies h`memoryOldSize, h`nextOldFree, h`nextFree, h`remembered, h`doFullGCNext
    ensures Usable(h) && (h.markStack == old(h.markStack) || fresh(h.markStack))
    ensures AgreesWith(s, LiveSet(s.mem, s.anchor), h, place')
    ensures old(RememberedOk(h)) || (full && old(PinsNoticed(ViewOf(h), h.mem, FullRoots(ViewOf(h), h.mem), h.remembered))) <==> RememberedOk(h)
  {
    hide Grounded, Agrees, Usable, Survived, RootsIn, RootsStay, InBounds, Layout, PinsNoticed, RememberedIn, FullRoots;
    ghost var v, mem := ViewOf(h), h.mem;
    UsableBounds(h);
    UsableOld(h);
    ghost var fwd := Collect(h, full);
    GroundedIs(s.mem, s.anchor);
    SurvivalAgrees(s, known, v, mem, place, ViewOf(h), h.mem, fwd);
    place' := Then(place, fwd);
  }

  /** After cloning, both heaps agree, with the copy. */
  lemma CloneAgrees(s: Ideal, known: set<int>, v: View, mem: Memory, place: map<int, int>, v': View, mem': Memory, x: int, p: int, hash: nat, color: bool,
                    fwd: map<int, int>) returns (live: set<int>, place1: map<int, int>)
    requires Agrees(s, known, mem, v, place) && Grounded(s.mem, s.anchor) && RootsStay(v, mem) && InBounds(v, mem) && AnchorOf(v') == AnchorOf(v)
    requires IsUsed(mem, Forward(place, x)) && Cloned(v, mem, mem', Forward(place, x), p, hash, color, fwd)
    requires x in LiveSet(s.mem, s.anchor)
    ensures live == LiveSet(s.mem, s.anchor) && place1 == Then(place, fwd)
    ensures IsUsed(s.mem, x) && Agrees(Copied(s, x, hash), live + {s.next}, mem', v', place1[s.next := p])
    ensures StackOf(Copied(s, x, hash).mem, s.anchor.interpreter) == StackOf(s.mem, s.anchor.interpreter)
  {
    hide Live, RootsOf, Represents, RootsStay, InBounds, FullRoots, Grounded, RootsIn, Survived, Moved, CopyOf, SameButMark;
    GroundedIs(s.mem, s.anchor);
    live, place1 := LiveSet(s.mem, s.anchor), Then(place, fwd);
    SurvivalAgrees(s, known, v, mem, place, v', mem', fwd);
    ForwardThen(place, fwd, x);
    assert Represented(s.mem, mem', place1, x);
    forall y | y in live ensures Forward(place1, y) != p {
      ForwardThen(place, fwd, y);
    }
    CopyAgrees(s, x, hash, mem', v', place1, p, color, live);
  }

  /** The original is live, and the same in both heaps. */
  lemma ClonesBoth(s: Ideal, known: set<int>, h: Heap, place: map<int, int>, op: Op) returns (x: Option<int>)
    requires AgreesWith(s, known, h, place) && HasStack(h.mem, h.interpreter) && h.stackPointer <= |CellsOf(h.mem, HereAnchor(h))|
    ensures Anchored(s.mem, s.anchor) && x == CloneOf(s.mem, s.anchor, op)
    ensures x.Some? ==> x.value in LiveSet(s.mem, s.anchor) && Represented(s.mem, h.mem, place, x.value)
    ensures CloneOf(h.mem, HereAnchor(h), op) == (if x.Some? then Some(Forward(place, x.value)) else None)
  {
    hide Grounded, Mirrors, Sound, Represented, Live;
    x := CloneOf(s.mem, s.anchor, op);
    SameClone(s, known, h.mem, ViewOf(h), place, op);
    if x.Some? {
      LiveRoot(s.mem, RootsOf(s.mem, s.anchor), x.value);
    }
  }

  /** The copy made, a cell refers to it. */
  lemma CellWrite(s: Ideal, x: int, op: Op, known: set<int>)
    requires Anchored(s.mem, s.anchor) && op.CloneInto? && CloneOf(s.mem, s.anchor, op) == Some(x)
    requires Covers(Copied(s, x, op.hash).mem, s.anchor, known) && s.next in known
    requires StackOf(Copied(s, x, op.hash).mem, s.anchor.interpreter) == StackOf(s.mem, s.anchor.interpreter)
    requires StackOf(s.mem, s.anchor.interpreter) in known
    ensures var w, s1 := Write(StackOf(s.mem, s.anchor.interpreter), op.to, Ref(s.next)), Copied(s, x, op.hash);
      Allowed(s1, known, w) && IdealStep(s, op) == s1.(mem := Written(s1.mem, w))
  {
    hide RootsOf;
  }

  /** A clone; at once, if it must be, and then it may fail. */
  method DoClone(h: Heap, op: Op, proto: int, atOnce: bool, ghost s: Ideal, ghost known: set<int>, ghost place: map<int, int>, ghost x: int)
    returns (ok: bool, ghost known': set<int>, ghost place': map<int, int>)
    requires Usable(h) && AgreesWith(s, known, h, place) && Grounded(s.mem, s.anchor)
    requires op.CloneInto? && CloneOf(s.mem, s.anchor, op) == Some(x) && x in LiveSet(s.mem, s.anchor)
    requires proto == Forward(place, x) && IsUsed(h.mem, proto) && Grounded(IdealStep(s, op).mem, s.anchor)
    requires !atOnce ==> RememberedOk(h) && h.memoryOldSize + 2 * h.memoryYoungSize + Words(h.mem[proto]) < h.memoryOldLimit
    modifies h`mem, h`markColor, h`markStack, h`markStackPosition, h`pushed, h`before, h.markStack
    modifies h`memoryOldSize, h`nextOldFree, h`nextFree, h`remembered, h`doFullGCNext
    ensures (h.markStack == old(h.markStack) || fresh(h.markStack)) && Usable(h)
    ensures ok ==> AgreesWith(IdealStep(s, op), known', h, place')
    ensures !ok ==> atOnce && AgreesWith(s, known', h, place') && (RememberedOk(h) <==> old(RememberedOk(h)))
    ensures !ok ==> !h.IsYoung(h.nextFree) && h.mem == old(h.mem)
    ensures !ok ==> NoYoungRoom(old(h.mem), old(h.nextFree), h.memoryYoung, h.memoryYoung + h.memoryYoungSize, old(Words(h.mem[proto])))
  {
    hide NoYoungRoom, Grounded, Agrees, Allowed, Usable, RememberedIn, RootsIn, RootsStay, InBounds, Layout, Cloned, LiveSet, RefersTo, Represented;
    ghost var v, mem := ViewOf(h), h.mem;
    UsableBounds(h);
    UsableOld(h);
    GroundedIs(s.mem, s.anchor);
    known', place' := known, place;
    var p;
    ghost var fwd: map<int, int> := map[];
    if atOnce {
      ok, p := CloneAtOnce(h, proto, op.hash);
      if !ok {
        return;
      }
    } else {
      ghost var inOld;
      ok := true;
      p, inOld, fwd := Clone(h, proto, op.hash);
    }
    known', place' := CloneAgrees(s, known, v, mem, place, ViewOf(h), h.mem, x, p, op.hash, h.markColor, fwd);
    ghost var s1 := Copied(s, x, op.hash);
    known', place' := known' + {s.next}, place'[s.next := p];
    ghost var w := CellKnown(s, x, op, known', h, place');
    UsableOld(h);
    assert place'[s.next] == p;
    WriteBoth(h, Write(StackOf(h.mem, h.interpreter), op.to, Ref(p)), true, s1, known', w, place');
  }

  lemma CellKnown(s: Ideal, x: int, op: Op, known: set<int>, h: Heap, place: map<int, int>) returns (w: Write)
    requires Anchored(s.mem, s.anchor) && op.CloneInto? && CloneOf(s.mem, s.anchor, op) == Some(x) && s.next in known
    requires IsUsed(s.mem, x) && AgreesWith(Copied(s, x, op.hash), known, h, place)
    requires StackOf(Copied(s, x, op.hash).mem, s.anchor.interpreter) == StackOf(s.mem, s.anchor.interpreter)
    ensures w == Write(StackOf(s.mem, s.anchor.interpreter), op.to, Ref(s.next)) && Allowed(Copied(s, x, op.hash), known, w)
    ensures IdealStep(s, op) == Copied(s, x, op.hash).(mem := Written(Copied(s, x, op.hash).mem, w))
    ensures HasStack(h.mem, h.interpreter) && StackOf(h.mem, h.interpreter) == Forward(place, w.target)
  {
    hide RootsOf, Mirrors, Sound, Allowed, CloneOf, IdealStep;
    SameCells(Copied(s, x, op.hash), known, h.mem, ViewOf(h), place);
    w := Write(StackOf(s.mem, s.anchor.interpreter), op.to, Ref(s.next));
    CellWrite(s, x, op, known);
  }

  // ---------- growing ----------

  /** After growing, both heaps agree, with the new stack. */
  lemma GrownAgrees(s: Ideal, known: set<int>, v: View, mem: Memory, place: map<int, int>, v': View, mem2: Memory, p: int, minimum: nat, hash: nat,
                    color: bool, fwd: map<int, int>) returns (known': set<int>, place': map<int, int>)
    requires Agrees(s, known, mem, v, place) && Grounded(s.mem, s.anchor) && RootsStay(v, mem) && InBounds(v, mem) && AnchorOf(v') == AnchorOf(v)
    requires CanGrow(s.mem, s.anchor) && CanGrow(mem, AnchorOf(v)) && HasRoots(v, mem)
    requires Grown(v, mem, mem2, p, GrownSize(mem, AnchorOf(v), minimum), hash, color, fwd)
    ensures IsUsed(mem2, v.interpreter) && STACK_SLOT < |mem2[v.interpreter].oops|
    ensures Agrees(IdealGrown(s, minimum, hash), known', Restacked(mem2, v.interpreter, p), v', place')
  {
    hide Live, RootsOf, Represents, RootsStay, InBounds, FullRoots, Grounded, RootsIn, Survived, Moved, NewStack, CanGrow, SameButMark, Points;
    GroundedIs(s.mem, s.anchor);
    SameSize(s, known, mem, v, place, minimum);
    var size := GrownSize(s.mem, s.anchor, minimum);
    var live, place1, b := LiveSet(s.mem, s.anchor), Then(place, fwd), NewStack(s.mem, s.anchor, size, hash, false);
    SurvivalAgrees(s, known, v, mem, place, v', mem2, fwd);
    NewStackMoved(s, live, mem2, v', place1, size, hash, color);
    forall y | y in live ensures Forward(place1, y) != p {
      ForwardThen(place, fwd, y);
    }
    AddAgrees(s, b, mem2, v', place1, p, live);
    known', place' := live + {s.next}, place1[s.next := p];
    NextIsNew(s);
    RestackAgrees(Added(s, b), known', s.next, mem2, v', place');
  }

  lemma NextIsNew(s: Ideal)
    requires CanStep(s)
    ensures s.next != s.anchor.interpreter
  {
  }

  lemma SameSize(s: Ideal, known: set<int>, mem: Memory, v: View, place: map<int, int>, minimum: nat)
    requires Agrees(s, known, mem, v, place) && CanGrow(s.mem, s.anchor) && CanGrow(mem, AnchorOf(v))
    ensures GrownSize(mem, AnchorOf(v), minimum) == GrownSize(s.mem, s.anchor, minimum)
  {
    SameCells(s, known, mem, v, place);
  }

  /** The stack grows; at once, if it must, and then it may fail. */
  method DoGrow(h: Heap, op: Op, atOnce: bool, ghost s: Ideal, ghost known: set<int>, ghost place: map<int, int>)
    returns (ok: bool, ghost known': set<int>, ghost place': map<int, int>)
    requires Usable(h) && AgreesWith(s, known, h, place) && Grounded(s.mem, s.anchor)
    requires op.GrowStack? && CanGrow(h.mem, HereAnchor(h)) && Grounded(IdealStep(s, op).mem, s.anchor)
    requires !atOnce ==> RememberedOk(h)
    requires !atOnce ==> h.memoryOldSize + 2 * h.memoryYoungSize + HEADER + GrownSize(h.mem, HereAnchor(h), op.minimum) < h.memoryOldLimit
    modifies h`mem, h`markColor, h`markStack, h`markStackPosition, h`pushed, h`before, h.markStack
    modifies h`memoryOldSize, h`nextOldFree, h`nextFree, h`remembered, h`doFullGCNext
    ensures (h.markStack == old(h.markStack) || fresh(h.markStack)) && Usable(h)
    ensures ok ==> AgreesWith(IdealStep(s, op), known', h, place')
    ensures !ok ==> atOnce && AgreesWith(s, known', h, place') && (RememberedOk(h) <==> old(RememberedOk(h)))
    ensures !ok ==> !h.IsYoung(h.nextFree) && h.mem == old(h.mem)
    ensures !ok ==> NoYoungRoom(old(h.mem), old(h.nextFree), h.memoryYoung, h.memoryYoung + h.memoryYoungSize,
                                HEADER + old(GrownSize(h.mem, HereAnchor(h), op.minimum)))
  {
    hide NoYoungRoom, Grounded, Agrees, Usable, RememberedIn, OnlyOldIn, RootsIn, RootsStay, InBounds, Layout, Grown, LiveSet, RefersTo, CanGrow, FullRoots, IdealGrown;
    ghost var v, mem := ViewOf(h), h.mem;
    UsableBounds(h);
    UsableOld(h);
    CanGrowBoth(s, known, h, place, op);
    known', place' := known, place;
    var p;
    ghost var inOld, mem2, fwd;
    ok, p, inOld, mem2, fwd := Grow(h, op.minimum, op.hash, atOnce);
    if !ok {
      SameAgrees(s, known, mem, v, ViewOf(h), place);
      return;
    }
    known', place' := GrownAgrees(s, known, v, mem, place, ViewOf(h), mem2, p, op.minimum, op.hash, h.markColor, fwd);
    assert h.mem == Restacked(mem2, h.interpreter, p);
    StillUsable(IdealStep(s, op), known', h, place');
  }

  lemma SameAgrees(s: Ideal, known: set<int>, mem: Memory, v: View, v': View, place: map<int, int>)
    requires Agrees(s, known, mem, v, place) && AnchorOf(v') == AnchorOf(v)
    ensures Agrees(s, known, mem, v', place)
  {
  }

  lemma CanGrowBoth(s: Ideal, known: set<int>, h: Heap, place: map<int, int>, op: Op)
    requires AgreesWith(s, known, h, place) && op.GrowStack?
    ensures Anchored(s.mem, s.anchor) && (CanGrow(h.mem, HereAnchor(h)) <==> CanGrow(s.mem, s.anchor))
    ensures IdealStep(s, op) == if CanGrow(s.mem, s.anchor) then IdealGrown(s, op.minimum, op.hash) else s
    ensures IdealStep(s, op).anchor == s.anchor
  {
    hide CanGrow, Mirrors, RootsOf, Sound, NewStack;
    StackKnown(s, known, h.mem, ViewOf(h), place);
  }

  /** The stack pointer moves, if it stays within the stack. */
  method DoMovePointer(h: Heap, op: Op, ghost s: Ideal, ghost known: set<int>, ghost place: map<int, int>)
    requires Usable(h) && AgreesWith(s, known, h, place) && op.MoveStackPointer? && Grounded(IdealStep(s, op).mem, IdealStep(s, op).anchor)
    requires HasStack(h.mem, h.interpreter)
    modifies h`stackPointer
    ensures Usable(h) && AgreesWith(IdealStep(s, op), known, h, place) && (RememberedOk(h) <==> old(RememberedOk(h)))
  {
    hide Grounded, Agrees, Usable, OnlyOldIn, RootsStay, Layout, RememberedIn;
    UsableOld(h);
    ghost var v := ViewOf(h);
    PointerBoth(s, known, h, place, op);
    if op.to <= |h.mem[StackOf(h.mem, h.interpreter)].oops| {
      h.stackPointer := op.to;
      SameRemembered(v, ViewOf(h), h.mem, h.remembered);
      StillUsable(IdealStep(s, op), known, h, place);
    }
  }

  lemma SameRemembered(v: View, v': View, mem: Memory, remembered: set<int>)
    requires v' == v.(stackPointer := v'.stackPointer)
    ensures (RememberedIn(v', mem, remembered) <==> RememberedIn(v, mem, remembered)) && (OnlyOldIn(v', mem, remembered) <==> OnlyOldIn(v, mem, remembered))
  {
  }

  lemma PointerBoth(s: Ideal, known: set<int>, h: Heap, place: map<int, int>, op: Op)
    requires AgreesWith(s, known, h, place) && op.MoveStackPointer?
    ensures Anchored(s.mem, s.anchor) && HasStack(h.mem, h.interpreter)
    ensures op.to <= |h.mem[StackOf(h.mem, h.interpreter)].oops| ==> Agrees(IdealStep(s, op), known, h.mem, ViewOf(h).(stackPointer := op.to), place)
    ensures op.to > |h.mem[StackOf(h.mem, h.interpreter)].oops| ==> IdealStep(s, op) == s
  {
    hide Mirrors, RootsOf, Sound;
    SameCells(s, known, h.mem, ViewOf(h), place);
    if op.to <= |CellsOf(s.mem, s.anchor)| {
      PointerAgrees(s, known, op.to, h.mem, ViewOf(h), place);
    }
  }

  // ---------- running ----------

  /** An old object that refers to a young one and is not remembered, if there is one. */
  method FindUnnoticed(h: Heap) returns (x: Option<int>)
    requires OnlyOld(h)
    ensures x.None? <==> RememberedOk(h)
    ensures x.Some? ==> Unnoticed(h, x.value)
  {
    hide RefersTo;
    var todo := h.mem.Keys;
    while todo != {}
      invariant todo <= h.mem.Keys && forall k | k in h.mem.Keys - todo :: !Unnoticed(h, k)
    {
      NotEmpty(todo);
      var k :| k in todo;
      if h.mem[k].Used? && h.IsOld(k) && k !in h.remembered {
        var young := HasYoung(h, k);
        if young {
          return Some(k);
        }
      }
      todo := todo - {k};
    }
    x := None;
    AllNoticed(h);
  }

  lemma AllNoticed(h: Heap)
    requires OnlyOld(h) && forall k | k in h.mem.Keys :: !Unnoticed(h, k)
    ensures RememberedOk(h)
  {
    hide RefersTo;
  }

  /**
   * Why a program stops: it is done, old space has no room left for what a collection may move there, or something old
   * refers to a young object unnoticed when young objects are to be collected.
   */
  datatype Stop = Finished | NoOldRoom | OldUnnoticed

  /** The words by which old space may have to grow during an operation. */
  function Growth(h: Heap, op: Op): int
    requires HasStack(h.mem, h.interpreter) && h.stackPointer <= |CellsOf(h.mem, HereAnchor(h))|
    reads h
  {
    var x := CloneOf(h.mem, HereAnchor(h), op);
    if x.Some? && IsUsed(h.mem, x.value) then 2 * h.memoryYoungSize + Words(h.mem[x.value])
    else if op.GrowStack? && CanGrow(h.mem, HereAnchor(h)) then 2 * h.memoryYoungSize + HEADER + GrownSize(h.mem, HereAnchor(h), op.minimum)
    else if op.CollectGarbage? then h.memoryYoungSize
    else -1
  }

  /** A clone, if there is room for what it may move. */
  method StepClone(h: Heap, op: Op, proto: int, atOnce: bool, ghost s: Ideal, ghost known: set<int>, ghost place: map<int, int>, ghost x: int)
    returns (stop: Stop, ghost known': set<int>, ghost place': map<int, int>)
    requires Usable(h) && AgreesWith(s, known, h, place) && Grounded(s.mem, s.anchor) && (atOnce <==> !RememberedOk(h))
    requires op.CloneInto? && CloneOf(s.mem, s.anchor, op) == Some(x) && x in LiveSet(s.mem, s.anchor)
    requires proto == Forward(place, x) && IsUsed(h.mem, proto) && Grounded(IdealStep(s, op).mem, s.anchor)
    requires HasRoots(ViewOf(h), h.mem) && CloneOf(h.mem, HereAnchor(h), op) == Some(proto)
    modifies h`mem, h`markColor, h`markStack, h`markStackPosition, h`pushed, h`before, h.markStack
    modifies h`memoryOldSize, h`nextOldFree, h`nextFree, h`remembered, h`doFullGCNext
    ensures (h.markStack == old(h.markStack) || fresh(h.markStack)) && Usable(h)
    ensures AgreesWith(if stop.Finished? then IdealStep(s, op) else s, known', h, place')
    ensures stop.NoOldRoom? ==> HasRoots(ViewOf(h), h.mem) && h.mem == old(h.mem) && h.memoryOldLimit <= h.memoryOldSize + Growth(h, op)
    ensures stop.OldUnnoticed? ==> atOnce
    ensures stop.OldUnnoticed? && !op.CollectGarbage? ==>
              && old(HasRoots(ViewOf(h), h.mem)) && !h.IsYoung(h.nextFree) && h.mem == old(h.mem)
              && NoYoungRoom(old(h.mem), old(h.nextFree), h.memoryYoung, h.memoryYoung + h.memoryYoungSize, old(Growth(h, op)) - 2 * h.memoryYoungSize)
    ensures !stop.Finished? ==> (RememberedOk(h) <==> old(RememberedOk(h)))
  {
    hide NoYoungRoom, Grounded, Agrees, Usable, RememberedIn, OnlyOldIn, RootsStay, Layout, CloneOf, IdealStep, LiveSet, CanGrow;
    known', place' := known, place;
    if !atOnce && h.memoryOldLimit <= h.memoryOldSize + 2 * h.memoryYoungSize + Words(h.mem[proto]) {
      return NoOldRoom, known', place';
    }
    var ok;
    ok, known', place' := DoClone(h, op, proto, atOnce, s, known, place, x);
    stop := if ok then Finished else OldUnnoticed;
  }

  /** A longer stack, if there is one that can grow and room for what that may move. */
  method StepGrow(h: Heap, op: Op, atOnce: bool, ghost s: Ideal, ghost known: set<int>, ghost place: map<int, int>)
    returns (stop: Stop, ghost known': set<int>, ghost place': map<int, int>)
    requires Usable(h) && AgreesWith(s, known, h, place) && Grounded(s.mem, s.anchor) && (atOnce <==> !RememberedOk(h))
    requires op.GrowStack? && Anchored(s.mem, s.anchor) && Grounded(IdealStep(s, op).mem, s.anchor) && HasRoots(ViewOf(h), h.mem)
    modifies h`mem, h`markColor, h`markStack, h`markStackPosition, h`pushed, h`before, h.markStack
    modifies h`memoryOldSize, h`nextOldFree, h`nextFree, h`remembered, h`doFullGCNext
    ensures (h.markStack == old(h.markStack) || fresh(h.markStack)) && Usable(h)
    ensures AgreesWith(if stop.Finished? then IdealStep(s, op) else s, known', h, place')
    ensures stop.NoOldRoom? ==> HasRoots(ViewOf(h), h.mem) && h.mem == old(h.mem) && h.memoryOldLimit <= h.memoryOldSize + Growth(h, op)
    ensures stop.OldUnnoticed? ==> atOnce
    ensures stop.OldUnnoticed? && !op.CollectGarbage? ==>
              && old(HasRoots(ViewOf(h), h.mem)) && !h.IsYoung(h.nextFree) && h.mem == old(h.mem)
              && NoYoungRoom(old(h.mem), old(h.nextFree), h.memoryYoung, h.memoryYoung + h.memoryYoungSize, old(Growth(h, op)) - 2 * h.memoryYoungSize)
    ensures !stop.Finished? ==> (RememberedOk(h) <==> old(RememberedOk(h)))
  {
    hide NoYoungRoom, Grounded, Agrees, Usable, RememberedIn, OnlyOldIn, RootsStay, Layout, IdealStep, CanGrow, IdealGrown;
    known', place', stop := known, place, Finished;
    CanGrowBoth(s, known, h, place, op);
    if CanGrow(h.mem, HereAnchor(h)) {
      if !atOnce && h.memoryOldLimit <= h.memoryOldSize + 2 * h.memoryYoungSize + HEADER + GrownSize(h.mem, HereAnchor(h), op.minimum) {
        return NoOldRoom, known', place';
      }
      var ok;
      ok, known', place' := DoGrow(h, op, atOnce, s, known, place);
      stop := if ok then Finished else OldUnnoticed;
    }
  }

  /** One that needs a block, or collects garbage. */
  method StepAllocating(h: Heap, op: Op, ghost s: Ideal, ghost known: set<int>, ghost place: map<int, int>)
    returns (stop: Stop, ghost known': set<int>, ghost place': map<int, int>)
    requires Usable(h) && AgreesWith(s, known, h, place) && Grounded(s.mem, s.anchor) && Grounded(IdealStep(s, op).mem, s.anchor)
    requires op.CloneInto? || op.GrowStack? || op.CollectGarbage?
    modifies h`mem, h`markColor, h`markStack, h`markStackPosition, h`pushed, h`before, h.markStack
    modifies h`memoryOldSize, h`nextOldFree, h`nextFree, h`remembered, h`doFullGCNext
    ensures (h.markStack == old(h.markStack) || fresh(h.markStack)) && Usable(h)
    ensures AgreesWith(if stop.Finished? then IdealStep(s, op) else s, known', h, place')
    ensures stop.NoOldRoom? ==> HasRoots(ViewOf(h), h.mem) && h.mem == old(h.mem) && h.memoryOldLimit <= h.memoryOldSize + Growth(h, op)
    ensures stop.OldUnnoticed? ==> MayScavenge(op) && !old(RememberedOk(h))
    ensures stop.OldUnnoticed? && !op.CollectGarbage? ==>
              && old(HasRoots(ViewOf(h), h.mem)) && !h.IsYoung(h.nextFree) && h.mem == old(h.mem)
              && NoYoungRoom(old(h.mem), old(h.nextFree), h.memoryYoung, h.memoryYoung + h.memoryYoungSize, old(Growth(h, op)) - 2 * h.memoryYoungSize)
    ensures !stop.Finished? ==> (RememberedOk(h) <==> old(RememberedOk(h)))
    ensures Careful(op) && old(RememberedOk(h)) ==> RememberedOk(h)
    ensures op == CollectGarbage(true) && stop.Finished? && old(PinsNoticed(ViewOf(h), h.mem, FullRoots(ViewOf(h), h.mem), h.remembered)) ==> RememberedOk(h)
  {
    hide NoYoungRoom, Grounded, Agrees, Usable, RememberedIn, OnlyOldIn, RootsIn, RootsStay, Layout, CloneOf, RefersTo, Represented, IdealStep, LiveSet, Represents,
      PinsNoticed, FullRoots, CanGrow, Unnoticed;
    UsableOld(h);
    RootsCells(h.mem, ViewOf(h));
    known', place' := known, place;
    ghost var x0 := ClonesBoth(s, known, h, place, op);
    var x := CloneOf(h.mem, HereAnchor(h), op);
    CloneUsed(h, op);
    var lost := FindUnnoticed(h);
    stop := Finished;
    if op.CollectGarbage? {
      NoStep(s, op);
      if lost.Some? && !op.full {
        return OldUnnoticed, known', place';
      }
      if h.memoryOldLimit <= h.memoryOldSize + h.memoryYoungSize {
        return NoOldRoom, known', place';
      }
      place' := DoCollect(h, op.full, s, known, place);
      known' := LiveSet(s.mem, s.anchor);
    } else if x.Some? {
      stop, known', place' := StepClone(h, op, x.value, lost.Some?, s, known, place, x0.value);
    } else if op.GrowStack? {
      stop, known', place' := StepGrow(h, op, lost.Some?, s, known, place);
    } else {
      NoStep(s, op);
    }
  }

  /** One operation, if there is room for it and nothing old is unnoticed that must not be. */
  method Step(h: Heap, op: Op, ghost s: Ideal, ghost known: set<int>, ghost place: map<int, int>)
    returns (stop: Stop, ghost known': set<int>, ghost place': map<int, int>)
    requires Usable(h) && AgreesWith(s, known, h, place) && Grounded(s.mem, s.anchor) && Grounded(IdealStep(s, op).mem, IdealStep(s, op).anchor)
    modifies h`mem, h`markColor, h`markStack, h`markStackPosition, h`pushed, h`before, h.markStack
    modifies h`memoryOldSize, h`nextOldFree, h`nextFree, h`remembered, h`doFullGCNext, h`stackPointer
    ensures (h.markStack == old(h.markStack) || fresh(h.markStack)) && Usable(h)
    ensures AgreesWith(if stop.Finished? then IdealStep(s, op) else s, known', h, place')
    ensures stop.NoOldRoom? ==> HasRoots(ViewOf(h), h.mem) && h.mem == old(h.mem) && h.memoryOldLimit <= h.memoryOldSize + Growth(h, op)
    ensures stop.OldUnnoticed? ==> MayScavenge(op) && !old(RememberedOk(h))
    ensures stop.OldUnnoticed? && !op.CollectGarbage? ==>
              && old(HasRoots(ViewOf(h), h.mem)) && !h.IsYoung(h.nextFree) && h.mem == old(h.mem)
              && NoYoungRoom(old(h.mem), old(h.nextFree), h.memoryYoung, h.memoryYoung + h.memoryYoungSize, old(Growth(h, op)) - 2 * h.memoryYoungSize)
    ensures !stop.Finished? ==> (RememberedOk(h) <==> old(RememberedOk(h)))
    ensures Careful(op) && old(RememberedOk(h)) ==> RememberedOk(h)
    ensures op == CollectGarbage(true) && stop.Finished? && old(PinsNoticed(ViewOf(h), h.mem, FullRoots(ViewOf(h), h.mem), h.remembered)) ==> RememberedOk(h)
  {
    hide NoYoungRoom, Grounded, Agrees, Usable, RememberedIn, OnlyOldIn, RootsIn, RootsStay, Layout, IdealStep, PinsNoticed, FullRoots, Growth;
    UsableOld(h);
    GroundedIs(s.mem, s.anchor);
    RootsCells(h.mem, ViewOf(h));
    SameAnchor(s, op);
    if op.MoveStackPointer? {
      known', place' := known, place;
      DoMovePointer(h, op, s, known, place);
      stop := Finished;
    } else if Writes(op) {
      known', place' := known, place;
      DoWrite(h, op, s, known, place);
      stop := Finished;
    } else {
      stop, known', place' := StepAllocating(h, op, s, known, place);
    }
  }

  lemma SameAnchor(s: Ideal, op: Op)
    requires Anchored(s.mem, s.anchor)
    ensures !op.MoveStackPointer? ==> IdealStep(s, op).anchor == s.anchor
  {
  }

  lemma CloneUsed(h: Heap, op: Op)
    requires HasStack(h.mem, h.interpreter) && h.stackPointer <= |CellsOf(h.mem, HereAnchor(h))|
    ensures var x := CloneOf(h.mem, HereAnchor(h), op); x.Some? ==> op.CloneInto? && IsUsed(h.mem, x.value)
  {
  }

  lemma NoStep(s: Ideal, op: Op)
    requires Anchored(s.mem, s.anchor) && (op.CollectGarbage? || (op.CloneInto? && CloneOf(s.mem, s.anchor, op).None?))
    ensures IdealStep(s, op) == s
  {
  }

  lemma GroundedAlong(ss: seq<Ideal>, ops: seq<Op>, i: nat)
    requires IsIdealRun(ss, ops) && i < |ops|
    ensures Grounded(ss[i].mem, ss[i].anchor) && ss[i + 1] == IdealStep(ss[i], ops[i]) && Grounded(ss[i + 1].mem, ss[i + 1].anchor)
  {
    assert ss[i + 1] == IdealStep(ss[i], ops[i]);
  }

  /**
   * A program runs as it would in the heap that is never collected: after every operation, what is live there is here,
   * one to one, with its contents, whether or not the remembered set has missed something. It stops early only when there
   * is no room for what the next operation may move to old space, or when young objects would be collected while an old
   * object refers to one of them unnoticed. A program of careful operations leaves nothing unnoticed.
   */
  method RunProgram(h: Heap, ops: seq<Op>, ghost ss: seq<Ideal>, ghost place0: map<int, int>)
    returns (done: nat, stop: Stop, lost: Option<int>, ghost place: map<int, int>)
    requires Usable(h) && IsIdealRun(ss, ops) && Follows(ss[0], h, place0)
    modifies h`mem, h`markColor, h`markStack, h`markStackPosition, h`pushed, h`before, h.markStack
    modifies h`memoryOldSize, h`nextOldFree, h`nextFree, h`remembered, h`doFullGCNext, h`stackPointer
    ensures done <= |ops| && (stop.Finished? <==> done == |ops|) && Usable(h) && Follows(ss[done], h, place)
    ensures stop.NoOldRoom? ==> HasRoots(ViewOf(h), h.mem) && h.memoryOldLimit <= h.memoryOldSize + Growth(h, ops[done])
    ensures stop.OldUnnoticed? ==> MayScavenge(ops[done]) && lost.Some? && (ops[done].CollectGarbage? || !h.IsYoung(h.nextFree))
    ensures (lost.None? <==> Ready(h)) && (lost.Some? ==> Unnoticed(h, lost.value))
    ensures old(RememberedOk(h)) && (forall i | 0 <= i < done :: Careful(ops[i])) && !stop.OldUnnoticed? ==> Ready(h)
  {
    hide NoYoungRoom, Grounded, Agrees, Usable, RememberedIn, OnlyOldIn, RootsStay, Layout, CloneOf, RefersTo, IdealStep, LiveSet, Represents, Follows,
      IsIdealRun, PinsNoticed, FullRoots, Growth, Unnoticed;
    RunStarts(ss, ops);
    FollowsAgrees(ss[0], h, place0);
    ghost var known := LiveSet(ss[0].mem, ss[0].anchor);
    done, place, stop := 0, place0, Finished;
    while done < |ops| && stop.Finished?
      invariant done <= |ops| && |ss| == |ops| + 1 && Usable(h) && AgreesWith(ss[done], known, h, place)
      invariant h.markStack == old(h.markStack) || fresh(h.markStack)
      invariant !stop.Finished? ==> done < |ops|
      invariant stop.NoOldRoom? ==> HasRoots(ViewOf(h), h.mem) && h.memoryOldLimit <= h.memoryOldSize + Growth(h, ops[done])
      invariant stop.OldUnnoticed? ==> MayScavenge(ops[done]) && !RememberedOk(h) && (ops[done].CollectGarbage? || !h.IsYoung(h.nextFree))
      invariant old(RememberedOk(h)) && (forall i | 0 <= i < done :: Careful(ops[i])) && !stop.OldUnnoticed? ==> RememberedOk(h)
      decreases |ops| - done, stop.Finished?
    {
      GroundedAlong(ss, ops, done);
      stop, known, place := Step(h, ops[done], ss[done], known, place);
      if stop.Finished? {
        done := done + 1;
      }
    }
    AgreesFollows(ss[done], known, h, place);
    UsableOld(h);
    lost := FindUnnoticed(h);
  }

  lemma RunStarts(ss: seq<Ideal>, ops: seq<Op>)
    requires IsIdealRun(ss, ops)
    ensures |ss| == |ops| + 1 && Grounded(ss[0].mem, ss[0].anchor) && Anchored(ss[0].mem, ss[0].anchor)
  {
  }
}

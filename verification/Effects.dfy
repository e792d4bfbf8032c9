/** What each operation does in the heap that is never collected, slot by slot. */
module Effects {
  import opened HeapModel
  import opened Marking
  import opened Roots
  import opened Forwarding
  import opened Collecting
  import opened Survival
  import opened Cloning
  import opened Growing
  import opened Mutating
  import opened TableSizes

  /** A cell in use refers to that object. */
  ghost predicate Holds(s: Ideal, cells: seq<Oop>, k: nat, x: int) {
    k < s.anchor.stackPointer <= |cells| && cells[k] == Ref(x) && IsUsed(s.mem, x)
  }

  /** All objects there were are as they were, but for one slot. */
  ghost predicate OneSlot(mem: Memory, mem': Memory, x: int, slot: nat, o: Oop) {
    && IsUsed(mem, x) && IsUsed(mem', x) && |mem'[x].oops| == |mem[x].oops| && slot < |mem[x].oops| && mem'[x].oops[slot] == o
    && (forall k | 0 <= k < |mem[x].oops| && k != slot :: mem'[x].oops[k] == mem[x].oops[k])
    && mem'[x].mapOop == mem[x].mapOop && mem'[x].raw == mem[x].raw && mem'[x].kind == mem[x].kind
    && mem'[x].hash == mem[x].hash && mem'[x].pins == mem[x].pins && mem'[x].mark == mem[x].mark
    && forall y | y in mem && y != x :: y in mem' && mem'[y] == mem[y]
  }

  /** A load puts the contents of the slot into the cell. */
  lemma LoadEffect(s: Ideal, op: Op, x: int)
    requires CanStep(s) && op.Load? && Holds(s, CellsOf(s.mem, s.anchor), op.from, x)
    requires op.slot < |s.mem[x].oops| && op.to < s.anchor.stackPointer && StackOf(s.mem, s.anchor.interpreter) != s.anchor.interpreter
    ensures var s' := IdealStep(s, op);
      && s'.anchor == s.anchor && s'.next == s.next && s'.mem.Keys == s.mem.Keys
      && OneSlot(s.mem, s'.mem, StackOf(s.mem, s.anchor.interpreter), op.to, s.mem[x].oops[op.slot])
  {
  }

  /** A store puts the contents of the cell into the slot. */
  lemma StoreEffect(s: Ideal, op: Op, x: int)
    requires CanStep(s) && op.Store? && Holds(s, CellsOf(s.mem, s.anchor), op.object_, x)
    requires op.slot < |s.mem[x].oops| && op.from < s.anchor.stackPointer && !(x == s.anchor.interpreter && op.slot == STACK_SLOT)
    ensures var s' := IdealStep(s, op);
      && s'.anchor == s.anchor && s'.next == s.next && s'.mem.Keys == s.mem.Keys
      && OneSlot(s.mem, s'.mem, x, op.slot, CellsOf(s.mem, s.anchor)[op.from])
  {
  }

  lemma SetSmallEffect(s: Ideal, op: Op)
    requires CanStep(s) && op.SetSmall? && op.to < s.anchor.stackPointer && StackOf(s.mem, s.anchor.interpreter) != s.anchor.interpreter
    ensures var s' := IdealStep(s, op);
      && s'.anchor == s.anchor && s'.next == s.next && s'.mem.Keys == s.mem.Keys
      && OneSlot(s.mem, s'.mem, StackOf(s.mem, s.anchor.interpreter), op.to, Small(op.value))
  {
  }

  /** A clone is a new object with the original's map and contents, unpinned, and the cell refers to it. */
  lemma CloneEffect(s: Ideal, op: Op, x: int)
    requires CanStep(s) && op.CloneInto? && Holds(s, CellsOf(s.mem, s.anchor), op.from, x)
    requires op.to < s.anchor.stackPointer && StackOf(s.mem, s.anchor.interpreter) != s.anchor.interpreter
    ensures var s' := IdealStep(s, op);
      && s'.anchor == s.anchor && s'.next == s.next + 1 && s'.mem.Keys == s.mem.Keys + {s.next} && s.next !in s.mem
      && IsUsed(s'.mem, s.next) && s'.mem[s.next].kind == s.mem[x].kind && s'.mem[s.next].mapOop == s.mem[x].mapOop
      && s'.mem[s.next].oops == s.mem[x].oops && s'.mem[s.next].raw == s.mem[x].raw
      && s'.mem[s.next].hash == op.hash && s'.mem[s.next].pins == 0
      && OneSlot(s.mem, s'.mem, StackOf(s.mem, s.anchor.interpreter), op.to, Ref(s.next))
  {
  }

  /** The interpreter's new stack: what is in use of the old one, and nil from there on. */
  lemma GrowEffect(s: Ideal, op: Op)
    requires CanStep(s) && op.GrowStack? && CanGrow(s.mem, s.anchor)
    ensures var s', cells, specials := IdealStep(s, op), s.mem[StackOf(s.mem, s.anchor.interpreter)].oops, s.mem[s.anchor.specialObjects].oops;
      && s'.anchor == s.anchor && s'.next == s.next + 1 && s'.mem.Keys == s.mem.Keys + {s.next} && s.next !in s.mem
      && OneSlot(s.mem, s'.mem, s.anchor.interpreter, STACK_SLOT, Ref(s.next))
      && IsUsed(s'.mem, s.next) && s'.mem[s.next].kind == OopArray && s'.mem[s.next].raw == [] && s'.mem[s.next].pins == 0
      && s'.mem[s.next].hash == op.hash && op.minimum <= |s'.mem[s.next].oops|
      && s'.mem[s.next].mapOop == s.mem[specials[SPECIAL_OOP_ARRAY_PROTO].addr].mapOop
      && (exists k: nat | 1 <= k :: |s'.mem[s.next].oops| == |cells| * Pow2(k) && (k == 1 || |cells| * Pow2(k - 1) < op.minimum))
      && (forall k | 0 <= k < s.anchor.stackPointer :: s'.mem[s.next].oops[k] == cells[k])
      && forall k | s.anchor.stackPointer <= k < |s'.mem[s.next].oops| :: s'.mem[s.next].oops[k] == specials[SPECIAL_OOP_NIL]
  {
    GrownSizeIsFirst(s.mem, s.anchor, op.minimum);
  }

  /** The stack pointer goes where it is told to, within the stack. */
  lemma MoveEffect(s: Ideal, op: Op)
    requires CanStep(s) && op.MoveStackPointer?
    ensures var s' := IdealStep(s, op);
      && s'.mem == s.mem && s'.next == s.next && s'.anchor.specialObjects == s.anchor.specialObjects && s'.anchor.interpreter == s.anchor.interpreter
      && s'.anchor.stackPointer == if op.to <= |s.mem[StackOf(s.mem, s.anchor.interpreter)].oops| then op.to else s.anchor.stackPointer
  {
  }

  /** An operation that names a cell not in use, no object, or no such slot does nothing; neither does a collection. */
  lemma NoEffect(s: Ideal, op: Op)
    requires CanStep(s)
    requires op.CollectGarbage?
          || (op.Load? && !(exists x :: Holds(s, CellsOf(s.mem, s.anchor), op.from, x) && op.slot < |s.mem[x].oops| && op.to < s.anchor.stackPointer))
          || (op.Store? && !(exists x :: Holds(s, CellsOf(s.mem, s.anchor), op.object_, x) && op.slot < |s.mem[x].oops| && op.from < s.anchor.stackPointer))
          || (op.SetSmall? && op.to >= s.anchor.stackPointer)
          || (op.CloneInto? && !(exists x :: Holds(s, CellsOf(s.mem, s.anchor), op.from, x) && op.to < s.anchor.stackPointer))
          || (op.GrowStack? && !CanGrow(s.mem, s.anchor))
    ensures IdealStep(s, op) == s
  {
    var cells := CellsOf(s.mem, s.anchor);
    var k := match op case Load(from, _, _) => from case Store(o, _, _, _) => o case CloneInto(from, _, _) => from case _ => 0;
    if k < s.anchor.stackPointer && cells[k].Ref? && IsUsed(s.mem, cells[k].addr) {
      assert Holds(s, cells, k, cells[k].addr);
    }
  }

  /** The room an operation has to find in old space: twice young space and the block it makes, or young space. */
  lemma GrowthExactly(h: Heap, op: Op, x: int)
    requires HasStack(h.mem, h.interpreter) && h.stackPointer <= |h.mem[StackOf(h.mem, h.interpreter)].oops|
    ensures op.CollectGarbage? ==> Growth(h, op) == h.memoryYoungSize
    ensures op.CloneInto? && Holds(Ideal(h.mem, HereAnchor(h), 0), h.mem[StackOf(h.mem, h.interpreter)].oops, op.from, x) && op.to < h.stackPointer
            && StackOf(h.mem, h.interpreter) != h.interpreter ==>
              Growth(h, op) == 2 * h.memoryYoungSize + 4 + |h.mem[x].oops| + |h.mem[x].raw|
    ensures op.GrowStack? && CanGrow(h.mem, HereAnchor(h)) ==>
      var n := |h.mem[StackOf(h.mem, h.interpreter)].oops|;
      exists k: nat | 1 <= k :: Growth(h, op) == 2 * h.memoryYoungSize + 4 + n * Pow2(k) && op.minimum <= n * Pow2(k)
                                && (k == 1 || n * Pow2(k - 1) < op.minimum)
    ensures Growth(h, op) > 0 ==> op.CollectGarbage? || op.CloneInto? || op.GrowStack?
  {
    if op.GrowStack? && CanGrow(h.mem, HereAnchor(h)) {
      GrownSizeIsFirst(h.mem, HereAnchor(h), op.minimum);
    }
  }

  /** Field by field: what is live in the heap that is never collected is in the other one, its references renamed, and no two in one place. */
  lemma FollowsExactly(s: Ideal, h: Heap, place: map<int, int>, x: int, y: int)
    requires Follows(s, h, place) && Live(s.mem, RootsOf(s.mem, s.anchor), x)
    ensures x in s.mem && s.mem[x].Used? && Forward(place, x) in h.mem && h.mem[Forward(place, x)].Used?
    ensures var b, c := s.mem[x], h.mem[Forward(place, x)];
      && c.kind == b.kind && c.hash == b.hash && c.pins == b.pins && c.raw == b.raw && c.mapOop == Forward(place, b.mapOop)
      && |c.oops| == |b.oops| && forall k | 0 <= k < |b.oops| :: c.oops[k] == if b.oops[k].Ref? then Ref(Forward(place, b.oops[k].addr)) else b.oops[k]
    ensures Live(s.mem, RootsOf(s.mem, s.anchor), y) && Forward(place, y) == Forward(place, x) ==> y == x
    ensures Forward(place, s.anchor.specialObjects) == h.specialObjects && Forward(place, s.anchor.interpreter) == h.interpreter
    ensures s.anchor.stackPointer == h.stackPointer
  {
    hide Live, RootsOf;
    assert Represented(s.mem, h.mem, place, x);
  }
}

/** Sweeping: what is not marked becomes free space, and neighbouring free blocks become one. */
module Sweeping {
  import opened HeapModel
  import opened Marking
  import opened Roots

  /** Used, but not reached by tracing. */
  predicate IsDead(mem: Memory, color: bool, x: int) {
    IsUsed(mem, x) && mem[x].mark != color
  }

  ghost function DeadIn(mem: Memory, color: bool, a: int, b: int): set<int> {
    set k | k in mem && a <= k < b && IsDead(mem, color, k)
  }

  /** The marked blocks between a and b, untouched, are the used ones. */
  ghost predicate KeptMarked(mem0: Memory, mem: Memory, color: bool, a: int, b: int) {
    && (forall k | a <= k < b :: IsUsed(mem, k) <==> IsMarked(mem0, color, k))
    && (forall k | a <= k < b && IsUsed(mem, k) :: mem[k] == mem0[k])
  }

  /** A swept space is tiled as before, holds just the marked blocks, untouched, and no two free neighbours. */
  ghost predicate Swept(mem0: Memory, mem: Memory, color: bool, a: int, b: int) {
    Space(mem, a, b) && SameOutside(mem0, mem, a, b) && KeptMarked(mem0, mem, color, a, b) && Coalesced(mem, a, b)
  }

  /** Block by block: used are the marked ones, as they were, and behind a free block that is not the last there is a used one. */
  lemma SweptExactly(mem0: Memory, mem: Memory, color: bool, a: int, b: int, k: int)
    requires Swept(mem0, mem, color, a, b) && a <= k < b
    ensures k in mem && mem[k].Used? <==> k in mem0 && mem0[k].Used? && mem0[k].mark == color
    ensures k in mem && mem[k].Used? ==> mem[k] == mem0[k]
    ensures k in mem && !mem[k].Used? && k + Words(mem[k]) != b ==> k + Words(mem[k]) in mem && mem[k + Words(mem[k])].Used?
  {
    hide Space;
    assert IsUsed(mem, k) <==> IsMarked(mem0, color, k);
  }

  /** The sweep has come to obj, and prev is the block before it. */
  ghost predicate SweptTo(mem0: Memory, mem: Memory, color: bool, a: int, b: int, prev: int, obj: int) {
    && Space(mem, a, b) && Tiled(mem, a, obj) && a <= prev <= obj <= b && (obj < b ==> obj in mem)
    && SameOutside(mem0, mem, a, obj) && KeptMarked(mem0, mem, color, a, obj)
    && (prev == obj == a || (prev < obj && prev in mem && prev + Words(mem[prev]) == obj))
    && (forall k | k in mem && a <= k < prev && IsFree(mem[k]) :: IsUsed(mem, k + Words(mem[k])))
  }

  function FreeIfDead(mem: Memory, color: bool, obj: int): Memory {
    if IsDead(mem, color, obj) then mem[obj := Free(Words(mem[obj]))] else mem
  }

  function Merge(mem: Memory, prev: int, obj: int): Memory
    requires prev in mem && obj in mem
  {
    (mem - {obj})[prev := Free(Words(mem[obj]) + Words(mem[prev]))]
  }

  lemma FreeIfDeadSpace(mem: Memory, color: bool, obj: int, a: int, b: int)
    requires Space(mem, a, b) && a <= obj < b && obj in mem
    ensures var mem' := FreeIfDead(mem, color, obj);
      Space(mem', a, b) && mem'.Keys == mem.Keys && Words(mem'[obj]) == Words(mem[obj])
      && (forall k | k in mem && k != obj :: mem'[k] == mem[k])
      && (forall c | Tiled(mem, a, c) :: Tiled(mem', a, c))
  {
    var mem' := FreeIfDead(mem, color, obj);
    SpaceSame(mem, mem', a, b);
    forall c | Tiled(mem, a, c) ensures Tiled(mem', a, c) {
      TiledSame(mem, mem', a, c);
    }
  }

  /** The sweep goes on without joining obj to what is before it. */
  lemma SweepKeeps(mem0: Memory, mem: Memory, color: bool, a: int, b: int, prev: int, obj: int)
    requires SweptTo(mem0, mem, color, a, b, prev, obj) && obj < b
    requires var mem' := FreeIfDead(mem, color, obj);
      obj in mem' && prev in mem' && !(IsFree(mem'[obj]) && IsFree(mem'[prev]) && obj != prev)
    ensures var mem' := FreeIfDead(mem, color, obj);
      SweptTo(mem0, mem', color, a, b, obj, obj + Words(mem[obj]))
  {
    hide Space, Tiled;
    var mem' := FreeIfDead(mem, color, obj);
    FreeIfDeadSpace(mem, color, obj, a, b);
    BlockEnds(mem, a, b, obj);
    var next := obj + Words(mem[obj]);
    KeepsMarked(mem0, mem, mem', color, a, obj, next);
    forall k | k in mem' && a <= k < obj && IsFree(mem'[k])
      ensures IsUsed(mem', k + Words(mem'[k]))
    {
      if k < prev {
        BlockEnds(mem, a, b, k);
        assert k + Words(mem[k]) <= prev;
      } else {
        BlockEnds(mem, a, b, prev);
        assert k == prev;
      }
    }
  }

  lemma KeepsMarked(mem0: Memory, mem: Memory, mem': Memory, color: bool, a: int, obj: int, next: int)
    requires a <= obj < next && SameOutside(mem0, mem, a, obj) && KeptMarked(mem0, mem, color, a, obj)
    requires obj in mem && mem' == FreeIfDead(mem, color, obj) && forall q | q in mem && obj < q < next :: false
    ensures SameOutside(mem0, mem', a, next) && KeptMarked(mem0, mem', color, a, next)
  {
  }

  /** The sweep goes on after joining obj, freed now or before, to the free block before it. */
  lemma SweepMerges(mem0: Memory, mem: Memory, color: bool, a: int, b: int, prev: int, obj: int)
    requires SweptTo(mem0, mem, color, a, b, prev, obj) && obj < b && obj != prev && IsFree(mem[prev])
    requires var mem' := FreeIfDead(mem, color, obj);
      IsFree(mem'[obj])
    ensures var mem' := Merge(FreeIfDead(mem, color, obj), prev, obj);
      SweptTo(mem0, mem', color, a, b, prev, obj + Words(mem[obj])) && prev in mem' && prev + Words(mem'[prev]) == obj + Words(mem[obj])
  {
    hide Space, Tiled, KeptMarked, SameOutside, FreeIfDead, Words, Merge;
    var mem1 := FreeIfDead(mem, color, obj);
    FreeIfDeadSpace(mem, color, obj, a, b);
    BlockEnds(mem, a, b, obj);
    var next := obj + Words(mem[obj]);
    MergedBlock(mem1, prev, obj);
    MergedNext(mem1, a, b, prev, obj);
    MergedSpace(mem1, a, b, prev, obj);
    KeepsMarked(mem0, mem, mem1, color, a, obj, next);
    MergeKeeps(mem0, mem1, color, a, prev, obj, next);
    MergeSeparates(mem, color, a, b, prev, obj);
  }

  lemma MergedBlock(mem: Memory, prev: int, obj: int)
    requires prev in mem && obj in mem && obj != prev
    ensures var mem' := Merge(mem, prev, obj);
      prev in mem' && Words(mem'[prev]) == Words(mem[obj]) + Words(mem[prev]) && forall k | k != obj :: k in mem <==> k in mem'
  {
  }

  lemma MergedNext(mem: Memory, a: int, b: int, prev: int, obj: int)
    requires Space(mem, a, b) && a <= prev < obj < b && prev in mem && obj in mem
    ensures obj + Words(mem[obj]) < b ==> obj + Words(mem[obj]) in Merge(mem, prev, obj)
  {
    hide Space, Tiled;
    BlockEnds(mem, a, b, obj);
  }

  lemma MergeSeparates(mem: Memory, color: bool, a: int, b: int, prev: int, obj: int)
    requires Space(mem, a, b) && a <= prev < obj < b && prev in mem && obj in mem && IsFree(mem[prev])
    requires forall k | k in mem && a <= k < prev && IsFree(mem[k]) :: IsUsed(mem, k + Words(mem[k]))
    ensures var mem' := Merge(FreeIfDead(mem, color, obj), prev, obj);
      forall k | k in mem' && a <= k < prev && IsFree(mem'[k]) :: IsUsed(mem', k + Words(mem'[k]))
  {
    hide Space, Tiled;
    var mem' := Merge(FreeIfDead(mem, color, obj), prev, obj);
    forall k | k in mem' && a <= k < prev && IsFree(mem'[k])
      ensures IsUsed(mem', k + Words(mem'[k]))
    {
      BlockEnds(mem, a, b, k);
      assert IsUsed(mem, k + Words(mem[k]));
    }
  }

  lemma MergedSpace(mem: Memory, a: int, b: int, prev: int, obj: int)
    requires Space(mem, a, b) && a <= prev && obj < b && prev in mem && obj in mem && obj == prev + Words(mem[prev])
    ensures Space(Merge(mem, prev, obj), a, b) && Tiled(Merge(mem, prev, obj), a, obj + Words(mem[obj]))
  {
    hide Tiled, Space;
    BlockEnds(mem, a, b, obj);
    BlockEnds(mem, a, b, prev);
    SpaceTiled(mem, a, b, prev);
    OneBlock(Merge(mem, prev, obj), prev, obj + Words(mem[obj]));
    SpaceReplace(mem, Merge(mem, prev, obj), a, prev, obj + Words(mem[obj]), b);
  }

  lemma MergeKeeps(mem0: Memory, mem: Memory, color: bool, a: int, prev: int, obj: int, next: int)
    requires a <= prev < obj < next && prev in mem && obj in mem && IsFree(mem[prev]) && IsFree(mem[obj])
    requires SameOutside(mem0, mem, a, next) && KeptMarked(mem0, mem, color, a, next)
    ensures SameOutside(mem0, Merge(mem, prev, obj), a, next) && KeptMarked(mem0, Merge(mem, prev, obj), color, a, next)
  {
    assert !IsUsed(mem, obj) && !IsUsed(mem, prev);
  }

  lemma SpaceTiled(mem: Memory, a: int, b: int, k: int)
    requires Space(mem, a, b) && k in mem && a <= k < b
    ensures Tiled(mem, a, k)
  {
  }

  lemma DeadMore(mem0: Memory, color: bool, a: int, obj: int, next: int)
    requires obj in mem0 && a <= obj < next && forall q | q in mem0 && obj < q < next :: false
    ensures DeadIn(mem0, color, a, next) == DeadIn(mem0, color, a, obj) + if IsDead(mem0, color, obj) then {obj} else {}
  {
  }

  /** What is erased from the remembered set: the old objects that get freed. */
  ghost function OldDead(mem0: Memory, color: bool, a: int, b: int, oldStart: int, oldEnd: int): set<int> {
    set x | x in DeadIn(mem0, color, a, b) && oldStart <= x < oldEnd
  }

  lemma NoneOldDead(mem0: Memory, color: bool, a: int, oldStart: int, oldEnd: int)
    ensures OldDead(mem0, color, a, a, oldStart, oldEnd) == {}
  {
  }

  lemma OldDeadMore(mem0: Memory, color: bool, a: int, obj: int, next: int, oldStart: int, oldEnd: int)
    requires obj in mem0 && a <= obj < next && forall q | q in mem0 && obj < q < next :: false
    ensures OldDead(mem0, color, a, next, oldStart, oldEnd) == OldDead(mem0, color, a, obj, oldStart, oldEnd)
                                                            + if IsDead(mem0, color, obj) && oldStart <= obj < oldEnd then {obj} else {}
  {
    DeadMore(mem0, color, a, obj, next);
  }

  /** heap_free_object. */
  method FreeObject(h: Heap, obj: int)
    requires obj in h.mem
    modifies h`mem, h`remembered
    ensures h.mem == old(h.mem)[obj := Free(Words(old(h.mem)[obj]))]
    ensures h.remembered == old(h.remembered) - if h.IsOld(obj) then {obj} else {}
  {
    if h.IsOld(obj) {
      h.remembered := h.remembered - {obj};
    }
    h.mem := h.mem[obj := Free(Words(h.mem[obj]))];
  }

  /** The step of the sweep: frees the block at obj if it is dead, and joins it to the block before if both are free. */
  method SweepBlock(h: Heap, ghost mem0: Memory, ghost a: int, ghost b: int, prev: int, obj: int) returns (prev': int, obj': int, freed: bool)
    requires SweptTo(mem0, h.mem, h.markColor, a, b, prev, obj) && obj < b
    modifies h`mem, h`remembered
    ensures SweptTo(mem0, h.mem, h.markColor, a, b, prev', obj')
    ensures obj in old(h.mem) && obj' == obj + Words(old(h.mem)[obj]) && freed == IsDead(old(h.mem), h.markColor, obj)
    ensures h.remembered == old(h.remembered) - if freed && h.IsOld(obj) then {obj} else {}
  {
    hide Space, Tiled, SweptTo, FreeIfDead, Merge, Words;
    SweepAt(mem0, h.mem, h.markColor, a, b, prev, obj);
    freed := !IsFree(h.mem[obj]) && h.mem[obj].mark != h.markColor;
    if freed {
      FreeObject(h, obj);
    }
    FreeIfDeadIs(old(h.mem), h.mem, h.markColor, obj);
    if IsFree(h.mem[obj]) && IsFree(h.mem[prev]) && obj != prev {
      SweepMerges(mem0, old(h.mem), h.markColor, a, b, prev, obj);
      h.mem := Merge(h.mem, prev, obj);
      prev', obj' := prev, prev + Words(h.mem[prev]);
    } else {
      SweepKeeps(mem0, old(h.mem), h.markColor, a, b, prev, obj);
      prev', obj' := obj, obj + Words(h.mem[obj]);
    }
  }

  /** Whether a sweep of old space found too little to free. */
  predicate FewFreed(objects: nat, freed: nat) {
    freed == 0 || objects / freed > 2
  }

  /** Up to obj, the sweep has counted the blocks and the dead ones, and erased the old dead ones from the remembered set. */
  ghost predicate Tallied(mem0: Memory, color: bool, a: int, obj: int, lo: int, hi: int, objects: nat, freed: nat, before: set<int>, now: set<int>) {
    && objects == |BlocksIn(mem0, a, obj)| && freed == |DeadIn(mem0, color, a, obj)|
    && now == before - OldDead(mem0, color, a, obj, lo, hi)
  }

  lemma TallyMore(mem0: Memory, mem: Memory, color: bool, a: int, b: int, prev: int, obj: int, lo: int, hi: int,
                  objects: nat, freed: nat, before: set<int>, now: set<int>)
    requires SweptTo(mem0, mem, color, a, b, prev, obj) && obj < b && obj in mem
    requires Tallied(mem0, color, a, obj, lo, hi, objects, freed, before, now)
    ensures var dead := IsDead(mem, color, obj);
      Tallied(mem0, color, a, obj + Words(mem[obj]), lo, hi, objects + 1, if dead then freed + 1 else freed,
              before, now - if dead && lo <= obj < hi then {obj} else {})
  {
    hide SweptTo, BlocksIn, DeadIn, OldDead, Words;
    SweepAt(mem0, mem, color, a, b, prev, obj);
    OldDeadMore(mem0, color, a, obj, obj + Words(mem[obj]), lo, hi);
  }

  /** heap_free_and_coalesce_unmarked. */
  method FreeAndCoalesceUnmarked(h: Heap, memory: int, memorySize: int)
    requires Space(h.mem, memory, memory + memorySize)
    modifies h`mem, h`remembered, h`doFullGCNext
    ensures Swept(old(h.mem), h.mem, h.markColor, memory, memory + memorySize)
    ensures h.remembered == old(h.remembered) - OldDead(old(h.mem), h.markColor, memory, memory + memorySize, h.memoryOld, h.memoryOld + h.memoryOldSize)
    ensures var objects, freed := |BlocksIn(old(h.mem), memory, memory + memorySize)|, |DeadIn(old(h.mem), h.markColor, memory, memory + memorySize)|;
            h.doFullGCNext == (old(h.doFullGCNext) || (memory == h.memoryOld && (freed == 0 || objects / freed > 2)))
  {
    hide Space, Tiled, SweptTo, Swept, FreeIfDead, Merge, OldDead, DeadIn, BlocksIn, Words, Tallied;
    ghost var mem0, end := h.mem, memory + memorySize;
    ghost var lo, hi := h.memoryOld, h.memoryOld + h.memoryOldSize;
    var obj, prev := memory, memory;
    var freeCount, objectCount := 0, 0;
    SweepStarts(mem0, h.markColor, memory, end);
    NoTally(mem0, h.markColor, memory, lo, hi, h.remembered);
    while obj < memory + memorySize
      invariant SweptTo(mem0, h.mem, h.markColor, memory, end, prev, obj)
      invariant Tallied(mem0, h.markColor, memory, obj, lo, hi, objectCount, freeCount, old(h.remembered), h.remembered)
      invariant h.doFullGCNext == old(h.doFullGCNext)
      decreases end - obj
    {
      SweepAt(mem0, h.mem, h.markColor, memory, end, prev, obj);
      TallyMore(mem0, h.mem, h.markColor, memory, end, prev, obj, lo, hi, objectCount, freeCount, old(h.remembered), h.remembered);
      objectCount := objectCount + 1;
      var freed;
      prev, obj, freed := SweepBlock(h, mem0, memory, end, prev, obj);
      if freed {
        freeCount := freeCount + 1;
      }
    }
    SweepEnds(mem0, h.mem, h.markColor, memory, end, prev, obj);
    TallyIs(mem0, h.markColor, memory, end, lo, hi, objectCount, freeCount, old(h.remembered), h.remembered);
    if memory == h.memoryOld && FewFreed(objectCount, freeCount) {
      h.doFullGCNext := true;
    }
  }

  lemma NoTally(mem0: Memory, color: bool, a: int, lo: int, hi: int, remembered: set<int>)
    ensures Tallied(mem0, color, a, a, lo, hi, 0, 0, remembered, remembered)
  {
    assert BlocksIn(mem0, a, a) == {} && DeadIn(mem0, color, a, a) == {};
    NoneOldDead(mem0, color, a, lo, hi);
  }

  lemma TallyIs(mem0: Memory, color: bool, a: int, b: int, lo: int, hi: int, objects: nat, freed: nat, before: set<int>, now: set<int>)
    requires Tallied(mem0, color, a, b, lo, hi, objects, freed, before, now)
    ensures objects == |BlocksIn(mem0, a, b)| && freed == |DeadIn(mem0, color, a, b)| && now == before - OldDead(mem0, color, a, b, lo, hi)
  {
  }

  lemma FreeIfDeadIs(mem: Memory, mem': Memory, color: bool, obj: int)
    requires obj in mem
    ensures mem' == (if IsDead(mem, color, obj) then mem[obj := Free(Words(mem[obj]))] else mem) ==> mem' == FreeIfDead(mem, color, obj)
    ensures obj in FreeIfDead(mem, color, obj) && Words(FreeIfDead(mem, color, obj)[obj]) == Words(mem[obj])
  {
  }

  lemma SweepStarts(mem0: Memory, color: bool, a: int, b: int)
    requires Space(mem0, a, b)
    ensures SweptTo(mem0, mem0, color, a, b, a, a)
    ensures BlocksIn(mem0, a, a) == {} && DeadIn(mem0, color, a, a) == {}
  {
  }

  lemma SweepAt(mem0: Memory, mem: Memory, color: bool, a: int, b: int, prev: int, obj: int)
    requires SweptTo(mem0, mem, color, a, b, prev, obj) && obj < b
    ensures obj in mem0 && obj in mem && prev in mem && mem[obj] == mem0[obj] && HEADER <= Words(mem[obj])
    ensures a <= obj && forall q | q in mem0 && obj < q < obj + Words(mem[obj]) :: false
    ensures BlocksIn(mem0, a, obj + Words(mem[obj])) == BlocksIn(mem0, a, obj) + {obj}
    ensures DeadIn(mem0, color, a, obj + Words(mem[obj]))
         == DeadIn(mem0, color, a, obj) + if IsDead(mem0, color, obj) then {obj} else {}
    ensures obj !in BlocksIn(mem0, a, obj) && obj !in DeadIn(mem0, color, a, obj)
  {
    BlockEnds(mem, a, b, obj);
    assert forall q | q in mem0 && obj < q < obj + Words(mem[obj]) :: q in mem;
    BlocksMore(mem0, a, obj, obj + Words(mem[obj]));
    DeadMore(mem0, color, a, obj, obj + Words(mem[obj]));
  }

  lemma SweepEnds(mem0: Memory, mem: Memory, color: bool, a: int, b: int, prev: int, obj: int)
    requires SweptTo(mem0, mem, color, a, b, prev, obj) && obj >= b
    ensures obj == b && Swept(mem0, mem, color, a, b)
  {
    hide Tiled, Space, KeptMarked;
    forall k | k in mem && a <= k < b && IsFree(mem[k]) && k + Words(mem[k]) != b
      ensures IsUsed(mem, k + Words(mem[k]))
    {
      if prev < k {
        BlockEnds(mem, a, b, prev);
      }
    }
  }
}

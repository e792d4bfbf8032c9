/** Allocation: the next free block with room for the new one and for a header behind it is split. */
module Allocating {
  import opened HeapModel
  import opened Marking
  import opened Roots

  /** A block as heap_make_used_space leaves it: a hash and a size, and no map yet. */
  function NewBlock(hash: nat, words: nat): Block
    requires HEADER <= words
  {
    Used(hash, false, 0, PlainObject, 0, [], seq(words - HEADER, i => 0))
  }

  /** A cursor into a space: where a block starts, or outside. */
  predicate Cursor(mem: Memory, a: int, b: int, x: int) {
    a <= x < b ==> x in mem
  }

  /** A free block with room for that many words. */
  predicate Fits(mem: Memory, x: int, words: nat) {
    x in mem && IsFree(mem[x]) && Words(mem[x]) >= words
  }

  /** That is: it is no object, and not too small. */
  lemma FitsExactly(mem: Memory, x: int, words: nat)
    ensures Fits(mem, x, words) <==> x in mem && !mem[x].Used? && mem[x].words >= words
  {
  }

  ghost predicate NoneFits(mem: Memory, a: int, b: int, words: nat) {
    forall k | a <= k < b :: !Fits(mem, k, words)
  }

  /** heap_find_first_young_free and heap_find_first_old_free: the first block from obj on that is free and big enough. */
  method FindFirstFree(h: Heap, start: int, memory: int, memorySize: int, words: nat) returns (found: bool, obj: int)
    requires Space(h.mem, memory, memory + memorySize) && memory <= start && Cursor(h.mem, memory, memory + memorySize, start)
    ensures found ==> start <= obj < memory + memorySize && Fits(h.mem, obj, words)
    ensures NoneFits(h.mem, start, if found then obj else memory + memorySize, words)
  {
    ghost var end := memory + memorySize;
    obj := start;
    while obj < memory + memorySize
      invariant memory <= start <= obj && Cursor(h.mem, memory, end, obj)
      invariant forall k | start <= k < obj && k < end :: !Fits(h.mem, k, words)
      decreases end - obj
    {
      BlockEnds(h.mem, memory, end, obj);
      if IsFree(h.mem[obj]) && Words(h.mem[obj]) >= words {
        return true, obj;
      }
      obj := obj + Words(h.mem[obj]);
    }
    return false, obj;
  }

  /** Splitting the free block at p: the new block, and free space behind it. */
  function Split(mem: Memory, p: int, b: Block): Memory
    requires p in mem && Words(b) <= Words(mem[p])
  {
    mem[p := b][p + Words(b) := Free(Words(mem[p]) - Words(b))]
  }

  /** What allocation of b at p does to a space that reached up to end and now reaches up to end'. */
  ghost predicate Placed(mem: Memory, mem': Memory, a: int, end: int, end': int, p: int, b: Block) {
    && Space(mem', a, end') && SameOutside(mem, mem', a, end') && a <= p < end'
    && !IsUsed(mem, p) && p in mem' && mem'[p] == b
    && (forall k | k != p && IsUsed(mem', k) :: IsUsed(mem, k))
    && (forall k | IsUsed(mem, k) :: k in mem' && mem'[k] == mem[k])
    && (end' == end || (end' == end + Words(b) && p == end))
  }

  lemma SplitPlaces(mem: Memory, a: int, end: int, p: int, b: Block)
    requires Space(mem, a, end) && a <= p < end && p in mem && IsFree(mem[p])
    requires HEADER <= Words(b) && Words(b) + HEADER <= Words(mem[p])
    ensures Placed(mem, Split(mem, p, b), a, end, end, p, b)
  {
    hide Space, Tiled;
    var mem' := Split(mem, p, b);
    var m, q := p + Words(b), p + Words(mem[p]);
    BlockEnds(mem, a, end, p);
    SpaceTiledAt(mem, a, end, p);
    OneBlock(mem', m, q);
    assert Space(mem', p, q) by {
      SplitSpace(mem', p, m, q);
    }
    SpaceReplace(mem, mem', a, p, q, end);
    assert m !in mem;
  }

  lemma SpaceTiledAt(mem: Memory, a: int, b: int, k: int)
    requires Space(mem, a, b) && k in mem && a <= k < b
    ensures Tiled(mem, a, k)
  {
  }

  lemma SplitSpace(mem: Memory, p: int, m: int, q: int)
    requires p in mem && HEADER <= Words(mem[p]) && p + Words(mem[p]) == m && Space(mem, m, q)
    requires forall k | k in mem && p < k < m :: false
    ensures Space(mem, p, q)
  {
    assert Tiled(mem, m, q);
    forall k | k in mem && p <= k < q
      ensures Tiled(mem, p, k)
    {
      assert k == p || m <= k;
    }
  }

  lemma AppendPlaces(mem: Memory, a: int, end: int, b: Block)
    requires Space(mem, a, end) && HEADER <= Words(b)
    requires forall k | end <= k < end + Words(b) :: k !in mem
    ensures Placed(mem, mem[end := b], a, end, end + Words(b), end, b)
  {
    var mem' := mem[end := b];
    SpaceSame(mem, mem', a, end);
    var q := end + Words(b);
    assert Tiled(mem', q, q);
    assert Tiled(mem', end, q);
    TiledConcat(mem', a, end, q);
    forall k | k in mem' && a <= k < q
      ensures Tiled(mem', a, k)
    {
      if k >= end {
        assert k == end;
      }
    }
  }

  /** gc_allocate_old: takes the next free block of old space that can be split, from the last one on, or extends the space. */
  method AllocateOld(h: Heap, words: nat) returns (p: int)
    requires HEADER <= words && h.memoryOldSize + words < h.memoryOldLimit
    requires Space(h.mem, h.memoryOld, h.memoryOld + h.memoryOldSize)
    requires forall k | h.memoryOld + h.memoryOldSize <= k < h.memoryOld + h.memoryOldLimit :: k !in h.mem
    requires Cursor(h.mem, h.memoryOld, h.memoryOld + h.memoryOldSize, h.nextOldFree)
    modifies h`mem, h`memoryOldSize, h`nextOldFree
    ensures exists hash :: Placed(old(h.mem), h.mem, h.memoryOld, h.memoryOld + old(h.memoryOldSize), h.memoryOld + h.memoryOldSize,
                                  p, NewBlock(hash, words))
    ensures h.nextOldFree == p
    ensures h.memoryOldSize == old(h.memoryOldSize)
       <==> !NoneFits(old(h.mem), old(if h.IsOld(h.nextOldFree) then h.nextOldFree else h.memoryOld), h.memoryOld + old(h.memoryOldSize), words + HEADER)
    ensures h.memoryOldSize == old(h.memoryOldSize) ==>
              && old(if h.IsOld(h.nextOldFree) then h.nextOldFree else h.memoryOld) <= p
              && old(Fits(h.mem, p, words + HEADER))
              && NoneFits(old(h.mem), old(if h.IsOld(h.nextOldFree) then h.nextOldFree else h.memoryOld), p, words + HEADER)
    ensures h.memoryOldSize != old(h.memoryOldSize) ==> p == h.memoryOld + old(h.memoryOldSize) && h.memoryOldSize == old(h.memoryOldSize) + words
  {
    hide Space, Tiled, Placed;
    ghost var end := h.memoryOld + h.memoryOldSize;
    StartsTiled(h.mem, h.memoryOld, end);
    var hash: nat := *;
    if !h.IsOld(h.nextOldFree) {
      h.nextOldFree := h.memoryOld;
    }
    var found, obj := FindFirstFree(h, h.nextOldFree, h.memoryOld, h.memoryOldSize, words + HEADER);
    if !found {
      h.nextOldFree := h.memoryOld + h.memoryOldSize;
      AppendPlaces(h.mem, h.memoryOld, end, NewBlock(hash, words));
      h.mem := h.mem[h.nextOldFree := NewBlock(hash, words)];
      h.memoryOldSize := h.memoryOldSize + words;
    } else {
      h.nextOldFree := obj;
      SplitPlaces(h.mem, h.memoryOld, end, obj, NewBlock(hash, words));
      h.mem := Split(h.mem, obj, NewBlock(hash, words));
    }
    p := h.nextOldFree;
  }

  lemma StartsTiled(mem: Memory, a: int, b: int)
    requires Space(mem, a, b)
    ensures a <= b && (a < b ==> a in mem)
  {
  }
}

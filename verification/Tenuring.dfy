/** heap_tenure: marked young objects move to old space, references follow, and young space is joined up again. */
module Tenuring {
  import opened HeapModel
  import opened Marking
  import opened Roots
  import opened Sweeping
  import opened Allocating
  import opened Forwarding

  // ---------- redirecting references ----------

  /** The word x either refers to a used block that did not move, or to the note a moved one left behind. */
  ghost predicate Follows(mem: Memory, fwd: map<int, int>, x: int) {
    if x in fwd then x in mem && mem[x].Forwarded? && mem[x].target == fwd[x] && IsUsed(mem, fwd[x]) else IsUsed(mem, x)
  }

  ghost predicate AllFollow(mem: Memory, fwd: map<int, int>, b: Block) {
    forall x | Points(b, x) :: Follows(mem, fwd, x)
  }

  method Resolve(h: Heap, x: int, ghost fwd: map<int, int>) returns (y: int)
    requires Follows(h.mem, fwd, x)
    ensures y == Forward(fwd, x)
  {
    y := x;
    while h.mem[y].Forwarded?
      invariant y in h.mem && (y == x || (y == Forward(fwd, x) && IsUsed(h.mem, y)))
      decreases h.mem[y].Forwarded?
    {
      y := h.mem[y].target;
    }
  }

  lemma StillFollows(mem: Memory, fwd: map<int, int>, o: int, b: Block, x: int)
    requires Follows(mem, fwd, x) && IsUsed(mem, o) && b.Used?
    ensures Follows(mem[o := b], fwd, x)
  {
  }

  /** One word of an object, redirected. */
  method UpdateWord(h: Heap, o: int, i: nat, ghost fwd: map<int, int>)
    requires IsUsed(h.mem, o) && i < |h.mem[o].oops| && (h.mem[o].oops[i].Ref? ==> Follows(h.mem, fwd, h.mem[o].oops[i].addr))
    modifies h`mem
    ensures var b := old(h.mem)[o];
      h.mem == old(h.mem)[o := b.(oops := b.oops[i := MoveOop(fwd, b.oops[i])])]
  {
    hide Follows;
    var val := h.mem[o].oops[i];
    if val.Ref? {
      var y := Resolve(h, val.addr, fwd);
      h.mem := h.mem[o := h.mem[o].(oops := h.mem[o].oops[i := Ref(y)])];
    } else {
      assert h.mem[o].oops[i := val] == h.mem[o].oops;
    }
  }

  /** The words of an object, redirected one after the other. */
  method UpdateWords(h: Heap, o: int, ghost fwd: map<int, int>, ghost mem0: Memory)
    requires IsUsed(h.mem, o) && IsUsed(mem0, o) && (forall x | Ref(x) in h.mem[o].oops :: Follows(mem0, fwd, x))
    requires h.mem == mem0[o := h.mem[o]]
    modifies h`mem
    ensures h.mem == mem0[o := old(h.mem)[o].(oops := MoveOops(fwd, old(h.mem)[o].oops))]
  {
    hide Follows, MoveOops, MovedTo;
    ghost var b, xs := h.mem[o], h.mem[o].oops;
    var i := 0;
    MovedNone(fwd, xs);
    while i < |h.mem[o].oops|
      invariant 0 <= i <= |b.oops| && |xs| == |b.oops| && xs == MovedTo(fwd, b.oops, i)
      invariant h.mem == mem0[o := b.(oops := xs)]
    {
      MovedOne(fwd, b.oops, i);
      if xs[i].Ref? {
        assert Ref(xs[i].addr) in b.oops;
        StillFollows(mem0, fwd, o, h.mem[o], xs[i].addr);
      }
      UpdateWord(h, o, i, fwd);
      xs := xs[i := MoveOop(fwd, b.oops[i])];
      i := i + 1;
    }
    MovedAll(fwd, b.oops);
  }

  /** One object's map, and then its words. */
  method UpdateObject(h: Heap, o: int, ghost fwd: map<int, int>)
    requires IsUsed(h.mem, o) && AllFollow(h.mem, fwd, h.mem[o])
    modifies h`mem
    ensures h.mem == old(h.mem)[o := Moved(fwd, old(h.mem)[o])]
  {
    hide Follows, MoveOops;
    ghost var mem0, b := h.mem, h.mem[o];
    assert Points(b, b.mapOop);
    var m := Resolve(h, h.mem[o].mapOop, fwd);
    h.mem := h.mem[o := h.mem[o].(mapOop := m)];
    forall x | Ref(x) in b.oops ensures Follows(mem0, fwd, x) {
      assert Points(b, x);
    }
    UpdateWords(h, o, fwd, mem0);
  }

  /** The first i words are redirected. */
  ghost function MovedTo(fwd: map<int, int>, xs: seq<Oop>, i: nat): seq<Oop>
    requires i <= |xs|
  {
    MoveOops(fwd, xs[..i]) + xs[i..]
  }

  lemma MovedNone(fwd: map<int, int>, xs: seq<Oop>)
    ensures MovedTo(fwd, xs, 0) == xs
  {
  }

  lemma MovedOne(fwd: map<int, int>, xs: seq<Oop>, i: nat)
    requires i < |xs|
    ensures |MovedTo(fwd, xs, i)| == |xs| && MovedTo(fwd, xs, i)[i] == xs[i]
    ensures MovedTo(fwd, xs, i)[i := MoveOop(fwd, xs[i])] == MovedTo(fwd, xs, i + 1)
  {
  }

  lemma MovedAll(fwd: map<int, int>, xs: seq<Oop>)
    ensures MovedTo(fwd, xs, |xs|) == MoveOops(fwd, xs)
  {
    assert xs[..|xs|] == xs;
  }

  /** Memory with the references of the used blocks from a up to b redirected. */
  function RedirectIn(mem: Memory, fwd: map<int, int>, a: int, b: int): Memory {
    map k | k in mem :: if a <= k < b && mem[k].Used? then Moved(fwd, mem[k]) else mem[k]
  }

  /** heap_update_forwarded_pointers. */
  method UpdateForwardedPointers(h: Heap, memory: int, memorySize: int, ghost fwd: map<int, int>)
    requires Space(h.mem, memory, memory + memorySize)
    requires forall k | memory <= k < memory + memorySize && IsUsed(h.mem, k) :: AllFollow(h.mem, fwd, h.mem[k])
    modifies h`mem
    ensures h.mem == RedirectIn(old(h.mem), fwd, memory, memory + memorySize)
  {
    hide Tiled, Space, AllFollow, Moved;
    ghost var mem0, end := h.mem, memory + memorySize;
    StartsTiled(mem0, memory, end);
    var o := memory;
    assert RedirectIn(mem0, fwd, memory, memory) == mem0;
    while o < memory + memorySize
      invariant memory <= o <= end && (o < end ==> o in mem0)
      invariant h.mem == RedirectIn(mem0, fwd, memory, o)
      decreases end - o
    {
      BlockEnds(mem0, memory, end, o);
      assert h.mem[o] == mem0[o];
      ghost var was := o;
      var next := o + Words(h.mem[o]);
      if !IsFree(h.mem[o]) {
        AllStillFollow(mem0, h.mem, fwd, o, memory);
        UpdateObject(h, o, fwd);
      }
      o := next;
      assert h.mem == RedirectIn(mem0, fwd, memory, o);
    }
  }

  lemma AllStillFollow(mem0: Memory, mem: Memory, fwd: map<int, int>, o: int, a: int)
    requires IsUsed(mem0, o) && AllFollow(mem0, fwd, mem0[o]) && mem == RedirectIn(mem0, fwd, a, o)
    ensures AllFollow(mem, fwd, mem0[o])
  {
  }

  // ---------- the remembered set ----------

  ghost predicate RefersTo(b: Block, a: int, end: int) {
    exists x :: Points(b, x) && a <= x < end
  }

  /** heap_remember_old_object. */
  method RememberOldObject(h: Heap, x: int)
    modifies h`remembered
    ensures h.remembered == old(h.remembered) + if h.IsOld(x) then {x} else {}
  {
    if h.IsOld(x) {
      h.remembered := h.remembered + {x};
    }
  }

  /** Whether the map or some word of an object refers to a young one. */
  method HasYoung(h: Heap, o: int) returns (yes: bool)
    requires IsUsed(h.mem, o)
    ensures yes <==> RefersTo(h.mem[o], h.memoryYoung, h.memoryYoung + h.memoryYoungSize)
  {
    assert Points(h.mem[o], h.mem[o].mapOop);
    if h.IsYoung(h.mem[o].mapOop) {
      return true;
    }
    var i := 0;
    while i < |h.mem[o].oops|
      invariant 0 <= i <= |h.mem[o].oops|
      invariant forall j | 0 <= j < i :: h.mem[o].oops[j].Ref? ==> !h.IsYoung(h.mem[o].oops[j].addr)
    {
      var val := h.mem[o].oops[i];
      if val.Ref? && h.IsYoung(val.addr) {
        assert val in h.mem[o].oops && Points(h.mem[o], val.addr);
        return true;
      }
      i := i + 1;
    }
    return false;
  }

  ghost function ToRemember(mem: Memory, xs: seq<int>, a: int, end: int): set<int> {
    set x | x in xs && IsUsed(mem, x) && RefersTo(mem[x], a, end)
  }

  /** Every tenured object that refers to a young one, a pinned one that stayed, is remembered. */
  method RememberTenured(h: Heap, tenured: seq<int>)
    requires forall x | x in tenured :: h.IsOld(x) && IsUsed(h.mem, x)
    modifies h`remembered
    ensures h.remembered == old(h.remembered) + ToRemember(h.mem, tenured, h.memoryYoung, h.memoryYoung + h.memoryYoungSize)
  {
    hide RefersTo;
    var i := 0;
    while i < |tenured|
      invariant 0 <= i <= |tenured|
      invariant h.remembered == old(h.remembered) + ToRemember(h.mem, tenured[..i], h.memoryYoung, h.memoryYoung + h.memoryYoungSize)
    {
      assert tenured[..i + 1] == tenured[..i] + [tenured[i]];
      var yes := HasYoung(h, tenured[i]);
      if yes {
        RememberOldObject(h, tenured[i]);
      }
      i := i + 1;
    }
    assert tenured[..|tenured|] == tenured;
  }

  // ---------- joining free blocks ----------

  /** The last pass of heap_tenure: neighbouring free blocks become one. */
  method CoalesceFree(h: Heap, memory: int, memorySize: int)
    requires Space(h.mem, memory, memory + memorySize) && forall k | memory <= k < memory + memorySize :: !IsDead(h.mem, h.markColor, k)
    modifies h`mem
    ensures Swept(old(h.mem), h.mem, h.markColor, memory, memory + memorySize)
  {
    hide Tiled, Space, SweptTo, Swept, Merge, Words;
    ghost var mem0, end := h.mem, memory + memorySize;
    var obj, prev := memory, memory;
    SweepStarts(mem0, h.markColor, memory, end);
    while obj < memory + memorySize
      invariant SweptTo(mem0, h.mem, h.markColor, memory, end, prev, obj)
      decreases end - obj
    {
      ghost var mem := h.mem;
      SweepAt(mem0, mem, h.markColor, memory, end, prev, obj);
      assert FreeIfDead(mem, h.markColor, obj) == mem;
      if IsFree(h.mem[obj]) && IsFree(h.mem[prev]) && obj != prev {
        SweepMerges(mem0, mem, h.markColor, memory, end, prev, obj);
        h.mem := Merge(h.mem, prev, obj);
        obj := prev + Words(h.mem[prev]);
      } else {
        SweepKeeps(mem0, mem, h.markColor, memory, end, prev, obj);
        prev := obj;
        obj := obj + Words(h.mem[obj]);
      }
    }
    SweepEnds(mem0, h.mem, h.markColor, memory, end, prev, obj);
  }

  // ---------- heap_tenure ----------

  ghost predicate MarkedClosed(mem: Memory, color: bool) {
    forall k, x | IsMarked(mem, color, k) && Points(mem[k], x) :: IsMarked(mem, color, x)
  }

  /** Tracing is complete and old space is swept. */
  ghost predicate ReadyToTenure(s: Spaces, mem: Memory) {
    && Starting(s, mem) && MarkedClosed(mem, s.color)
    && (forall k | IsUsed(mem, k) && (s.oldStart <= k < s.oldEnd || IsPinned(mem, k)) :: IsMarked(mem, s.color, k))
  }

  /** Every marked object is where fwd says, its references redirected, and nothing else is in use. */
  ghost predicate Relocated(mem0: Memory, color: bool, mem: Memory, fwd: map<int, int>) {
    && (forall x | IsMarked(mem0, color, x) :: Forward(fwd, x) in mem && mem[Forward(fwd, x)] == Moved(fwd, mem0[x]))
    && (forall k | IsUsed(mem, k) :: CameFrom(mem0, color, fwd, k))
  }

  ghost predicate CameFrom(mem0: Memory, color: bool, fwd: map<int, int>, k: int) {
    exists x :: IsMarked(mem0, color, x) && Forward(fwd, x) == k
  }

  ghost function Bounds(h: Heap): Spaces
    reads h
  {
    Spaces(h.memoryOld, h.memoryOld + h.memoryOldSize, h.memoryYoung, h.memoryYoung + h.memoryYoungSize, h.markColor)
  }

  /** The first pass of heap_tenure: every marked and unpinned young object is copied and leaves its new address behind. */
  method MoveMarked(h: Heap, ghost s: Spaces) returns (tenured: seq<int>, ghost fwd: map<int, int>)
    requires s == Bounds(h) && ReadyToTenure(s, h.mem) && Apart(s, h.memoryOld + h.memoryOldLimit)
    modifies h`mem, h`memoryOldSize, h`nextOldFree, h`remembered
    ensures TenuredTo(s, old(h.mem), h.mem, h.memoryOld + h.memoryOldSize, fwd, s.youngEnd)
    ensures forall y :: y in tenured <==> IsTarget(fwd, y)
    ensures h.memoryOldSize <= h.memoryOldLimit && h.remembered == old(h.remembered)
    ensures h.memoryOldSize <= old(h.memoryOldSize) + h.memoryYoungSize
    ensures Cursor(h.mem, h.memoryOld, h.memoryOld + h.memoryOldSize, h.nextOldFree)
  {
    hide Tiled, Space, TenuredTo, Starting, Placed, MarkedClosed, Carry, FreeIfDead, Words;
    ghost var mem0, limit := h.mem, h.memoryOld + h.memoryOldLimit;
    assert Starting(s, mem0);
    h.nextOldFree := h.memoryOld;
    tenured, fwd := [], map[];
    var obj := h.memoryYoung;
    TenureStarts(s, mem0, limit);
    FirstCursor(s, mem0);
    while obj < h.memoryYoung + h.memoryYoungSize
      invariant s.youngStart <= obj <= s.youngEnd && s.oldEnd <= h.memoryOld + h.memoryOldSize <= limit
      invariant TenuredTo(s, mem0, h.mem, h.memoryOld + h.memoryOldSize, fwd, obj)
      invariant forall y :: y in tenured <==> IsTarget(fwd, y)
      invariant h.remembered == old(h.remembered)
      invariant Cursor(h.mem, h.memoryOld, h.memoryOld + h.memoryOldSize, h.nextOldFree)
      decreases s.youngEnd - obj
    {
      ghost var mem, oldEnd := h.mem, h.memoryOld + h.memoryOldSize;
      TenureAt(s, mem0, mem, oldEnd, fwd, obj);
      OutOfOld(s, mem0, mem, oldEnd, fwd, obj, limit);
      var next := obj + Words(h.mem[obj]);
      FreeIfDeadKeys(mem, s.color, obj);
      FreeIfDeadIs(mem, mem, s.color, obj);
      if IsFree(h.mem[obj]) {
        TenureSkips(s, mem0, mem, oldEnd, fwd, obj, limit);
      } else if h.mem[obj].mark != h.markColor {
        TenureSkips(s, mem0, mem, oldEnd, fwd, obj, limit);
        FreeObject(h, obj);
        FreeIfDeadIs(mem, h.mem, s.color, obj);
      } else if IsPinned(h.mem, obj) {
        TenureSkips(s, mem0, mem, oldEnd, fwd, obj, limit);
      } else {
        var to := MoveOne(h, s, mem0, obj, fwd, limit);
        TargetsMore(fwd, obj, to);
        tenured := tenured + [to];
        fwd := fwd[obj := to];
      }
      obj := next;
    }
    assert h.memoryOldSize <= old(h.memoryOldSize) + h.memoryYoungSize by { GrownBy(s, mem0, h.mem, h.memoryOld + h.memoryOldSize, fwd, obj); }
  }

  lemma GrownBy(s: Spaces, mem0: Memory, mem: Memory, oldEnd: int, fwd: map<int, int>, obj: int)
    requires TenuredTo(s, mem0, mem, oldEnd, fwd, obj)
    ensures oldEnd - s.oldEnd <= obj - s.youngStart
  {
  }

  /** A marked object is copied to a new block in old space. */
  method MoveOne(h: Heap, ghost s: Spaces, ghost mem0: Memory, obj: int, ghost fwd: map<int, int>, ghost limit: int) returns (to: int)
    requires limit == h.memoryOld + h.memoryOldLimit && s.oldStart == h.memoryOld
    requires Starting(s, mem0) && Apart(s, limit) && obj < s.youngEnd
    requires TenuredTo(s, mem0, h.mem, h.memoryOld + h.memoryOldSize, fwd, obj)
    requires obj in mem0 && Moves(mem0, s.color, obj)
    requires Cursor(h.mem, h.memoryOld, h.memoryOld + h.memoryOldSize, h.nextOldFree)
    modifies h`mem, h`memoryOldSize, h`nextOldFree
    ensures TenuredTo(s, mem0, h.mem, h.memoryOld + h.memoryOldSize, fwd[obj := to], obj + Words(mem0[obj]))
    ensures old(h.memoryOldSize) <= h.memoryOldSize <= h.memoryOldLimit
    ensures Cursor(h.mem, h.memoryOld, h.memoryOld + h.memoryOldSize, h.nextOldFree)
  {
    hide Tiled, Space, TenuredTo, Starting, Placed, Words;
    ghost var mem, oldEnd := h.mem, h.memoryOld + h.memoryOldSize;
    TenureAt(s, mem0, mem, oldEnd, fwd, obj);
    OutOfOld(s, mem0, mem, oldEnd, fwd, obj, limit);
    var words := Words(h.mem[obj]);
    to := AllocateOld(h, words);
    ghost var hash :| Placed(mem, h.mem, h.memoryOld, oldEnd, h.memoryOld + h.memoryOldSize, to, NewBlock(hash, words));
    ghost var mem1 := h.mem;
    NewBlockWords(hash, words);
    TenureMoves(s, mem0, mem, oldEnd, fwd, obj, limit, mem1, h.memoryOld + h.memoryOldSize, to, NewBlock(hash, words));
    PlacedBounds(mem, mem1, h.memoryOld, oldEnd, h.memoryOld + h.memoryOldSize, to, NewBlock(hash, words), obj);
    h.mem := h.mem[to := h.mem[obj]];
    h.mem := h.mem[obj := Forwarded(words, to)];
    assert h.mem == Carry(mem1, to, obj);
  }

  lemma NewBlockWords(hash: nat, words: nat)
    requires HEADER <= words
    ensures NewBlock(hash, words).Used? && Words(NewBlock(hash, words)) == words
  {
  }

  lemma FirstCursor(s: Spaces, mem: Memory)
    requires Starting(s, mem)
    ensures s.oldStart <= s.oldEnd && s.youngStart <= s.youngEnd && Cursor(mem, s.oldStart, s.oldEnd, s.oldStart)
  {
  }

  /** There is room in old space for the block at obj and everything behind it. */
  lemma OutOfOld(s: Spaces, mem0: Memory, mem: Memory, oldEnd: int, fwd: map<int, int>, obj: int, limit: int)
    requires Starting(s, mem0) && Apart(s, limit) && TenuredTo(s, mem0, mem, oldEnd, fwd, obj) && obj < s.youngEnd && obj in mem0
    ensures Space(mem, s.oldStart, oldEnd) && HEADER <= Words(mem0[obj]) && oldEnd + Words(mem0[obj]) < limit
    ensures !(s.oldStart <= obj < limit)
    ensures forall k | oldEnd <= k < limit :: k !in mem
  {
    TenureAt(s, mem0, mem, oldEnd, fwd, obj);
  }

  lemma TargetsMore(fwd: map<int, int>, obj: int, to: int)
    requires obj !in fwd
    ensures forall y :: IsTarget(fwd[obj := to], y) <==> IsTarget(fwd, y) || y == to
  {
    var fwd' := fwd[obj := to];
    forall y ensures IsTarget(fwd', y) <==> IsTarget(fwd, y) || y == to {
      if IsTarget(fwd, y) {
        var x :| x in fwd && fwd[x] == y;
        assert x in fwd' && fwd'[x] == y;
      }
      if y == to {
        assert obj in fwd' && fwd'[obj] == y;
      }
    }
  }

  /** After the first pass every used block is a marked object, where fwd says. */
  ghost predicate Copied(mem0: Memory, color: bool, mem: Memory, fwd: map<int, int>) {
    && (forall x | IsMarked(mem0, color, x) :: IsUsed(mem, Forward(fwd, x)) && mem[Forward(fwd, x)] == mem0[x])
    && (forall k | IsUsed(mem, k) :: CameFrom(mem0, color, fwd, k))
    && (forall x | IsMarked(mem0, color, x) :: Follows(mem, fwd, x))
  }

  lemma TenuredCopies(s: Spaces, mem0: Memory, mem: Memory, oldEnd: int, fwd: map<int, int>, limit: int)
    requires ReadyToTenure(s, mem0) && Apart(s, limit) && oldEnd <= limit && TenuredTo(s, mem0, mem, oldEnd, fwd, s.youngEnd)
    ensures Copied(mem0, s.color, mem, fwd)
  {
    hide Tiled, Space, MarkedClosed;
    forall x | IsMarked(mem0, s.color, x)
      ensures IsUsed(mem, Forward(fwd, x)) && mem[Forward(fwd, x)] == mem0[x] && Follows(mem, fwd, x)
    {
      if s.youngStart <= x < s.youngEnd {
        assert x in fwd.Keys <==> x in MovesIn(mem0, s.color, s.youngStart, s.youngEnd);
        assert mem[x] == LeftBehind(mem0, s.color, fwd, x);
      } else {
        assert x !in MovesIn(mem0, s.color, s.youngStart, s.youngEnd);
      }
    }
    forall k | IsUsed(mem, k)
      ensures CameFrom(mem0, s.color, fwd, k)
    {
      if s.youngStart <= k < s.youngEnd {
        assert mem[k] == LeftBehind(mem0, s.color, fwd, k);
        assert IsMarked(mem0, s.color, k) && Forward(fwd, k) == k;
      } else if IsUsed(mem0, k) {
        assert IsMarked(mem0, s.color, k) && k !in MovesIn(mem0, s.color, s.youngStart, s.youngEnd) && Forward(fwd, k) == k;
      } else {
        var x :| x in fwd && fwd[x] == k;
        assert x in MovesIn(mem0, s.color, s.youngStart, s.youngEnd) && IsMarked(mem0, s.color, x) && Forward(fwd, x) == k;
      }
    }
  }

  /** Every reference of a used block can be followed. */
  lemma CopiedFollow(mem0: Memory, color: bool, mem: Memory, fwd: map<int, int>, k: int)
    requires MarkedClosed(mem0, color) && Copied(mem0, color, mem, fwd) && IsUsed(mem, k)
    ensures AllFollow(mem, fwd, mem[k])
  {
    var x :| IsMarked(mem0, color, x) && Forward(fwd, x) == k;
    assert mem[k] == mem0[x];
    forall y | Points(mem[k], y) ensures Follows(mem, fwd, y) {
      assert IsMarked(mem0, color, y);
    }
  }

  lemma RedirectSame(mem: Memory, fwd: map<int, int>, a: int, b: int, x: int)
    ensures Follows(mem, fwd, x) ==> Follows(RedirectIn(mem, fwd, a, b), fwd, x)
    ensures IsUsed(mem, x) <==> IsUsed(RedirectIn(mem, fwd, a, b), x)
  {
  }

  lemma RedirectSpace(mem: Memory, fwd: map<int, int>, a: int, b: int, lo: int, hi: int)
    requires Space(mem, lo, hi)
    ensures Space(RedirectIn(mem, fwd, a, b), lo, hi)
  {
    SpaceSame(mem, RedirectIn(mem, fwd, a, b), lo, hi);
  }

  /** Both spaces redirected: every used block is. */
  lemma Redirected(mem0: Memory, color: bool, mem: Memory, fwd: map<int, int>, a: int, b: int, c: int, d: int)
    requires Copied(mem0, color, mem, fwd) && (b <= c || d <= a) && forall k | k in mem :: a <= k < b || c <= k < d
    ensures Relocated(mem0, color, RedirectIn(RedirectIn(mem, fwd, a, b), fwd, c, d), fwd)
  {
    hide CameFrom, Moved, Forward, Follows;
    var mem' := RedirectIn(RedirectIn(mem, fwd, a, b), fwd, c, d);
    forall k | IsUsed(mem', k) ensures CameFrom(mem0, color, fwd, k) {
      RedirectSame(mem, fwd, a, b, k);
      RedirectSame(RedirectIn(mem, fwd, a, b), fwd, c, d, k);
    }
    forall x | IsMarked(mem0, color, x) ensures Forward(fwd, x) in mem' && mem'[Forward(fwd, x)] == Moved(fwd, mem0[x]) {
      var k := Forward(fwd, x);
      assert IsUsed(mem, k) && mem[k] == mem0[x];
    }
  }

  /** No used block is unmarked. */
  lemma RelocatedMarked(mem0: Memory, color: bool, mem: Memory, fwd: map<int, int>)
    requires Relocated(mem0, color, mem, fwd)
    ensures forall k :: !IsDead(mem, color, k)
  {
    forall k ensures !IsDead(mem, color, k) {
      if IsUsed(mem, k) {
        var x :| IsMarked(mem0, color, x) && Forward(fwd, x) == k;
      }
    }
  }

  /** Joining free blocks changes no used one. */
  lemma CoalesceKeeps(mem0: Memory, color: bool, mem: Memory, mem': Memory, fwd: map<int, int>, a: int, b: int)
    requires Relocated(mem0, color, mem, fwd) && Swept(mem, mem', color, a, b)
    ensures Relocated(mem0, color, mem', fwd)
    ensures forall k | IsUsed(mem, k) || IsUsed(mem', k) :: k in mem && k in mem' && mem'[k] == mem[k]
  {
    hide MoveOops, CameFrom, Space, Coalesced;
    RelocatedMarked(mem0, color, mem, fwd);
    forall k ensures (IsUsed(mem, k) <==> IsUsed(mem', k)) && (IsUsed(mem, k) ==> mem'[k] == mem[k]) {
      assert !IsDead(mem, color, k);
      if a <= k < b {
        assert IsUsed(mem', k) <==> IsMarked(mem, color, k);
      }
    }
    forall x | IsMarked(mem0, color, x) ensures Forward(fwd, x) in mem' && mem'[Forward(fwd, x)] == Moved(fwd, mem0[x]) {
      assert IsUsed(mem, Forward(fwd, x));
    }
  }

  /** What tenuring leaves: old space grown, young space joined up, and every marked object where fwd says. */
  ghost predicate Settled(s: Spaces, mem0: Memory, mem: Memory, oldEnd: int, fwd: map<int, int>) {
    && Space(mem, s.oldStart, oldEnd) && s.oldEnd <= oldEnd
    && Space(mem, s.youngStart, s.youngEnd) && Coalesced(mem, s.youngStart, s.youngEnd)
    && (forall k | k in mem :: s.oldStart <= k < oldEnd || s.youngStart <= k < s.youngEnd)
    && fwd.Keys == MovesIn(mem0, s.color, s.youngStart, s.youngEnd) && Injective(fwd)
    && (forall x | x in fwd :: s.oldStart <= fwd[x] < oldEnd && !IsUsed(mem0, fwd[x]))
    && Relocated(mem0, s.color, mem, fwd)
  }

  /** The second pass of heap_tenure: both spaces are redirected. */
  method UpdateAll(h: Heap, ghost s: Spaces, ghost mem0: Memory, ghost fwd: map<int, int>)
    requires s.oldStart == h.memoryOld && s.youngStart == h.memoryYoung && s.youngEnd == h.memoryYoung + h.memoryYoungSize
    requires Copied(mem0, s.color, h.mem, fwd) && forall k | IsUsed(h.mem, k) :: AllFollow(h.mem, fwd, h.mem[k])
    requires Space(h.mem, s.oldStart, h.memoryOld + h.memoryOldSize) && Space(h.mem, s.youngStart, s.youngEnd)
    requires h.memoryOld + h.memoryOldSize <= s.youngStart || s.youngEnd <= s.oldStart
    requires forall k | k in h.mem :: s.oldStart <= k < h.memoryOld + h.memoryOldSize || s.youngStart <= k < s.youngEnd
    modifies h`mem
    ensures Relocated(mem0, s.color, h.mem, fwd) && h.mem.Keys == old(h.mem.Keys)
    ensures Space(h.mem, s.oldStart, h.memoryOld + h.memoryOldSize) && Space(h.mem, s.youngStart, s.youngEnd)
    ensures forall k :: !IsDead(h.mem, s.color, k)
  {
    hide Tiled, Space, Relocated, Copied, AllFollow;
    ghost var mem1, oldEnd := h.mem, h.memoryOld + h.memoryOldSize;
    UpdateForwardedPointers(h, h.memoryOld, h.memoryOldSize, fwd);
    ghost var mem2 := h.mem;
    AfterOld(mem1, fwd, s, oldEnd);
    UpdateForwardedPointers(h, h.memoryYoung, h.memoryYoungSize, fwd);
    RedirectSpace(mem2, fwd, s.youngStart, s.youngEnd, s.oldStart, oldEnd);
    RedirectSpace(mem2, fwd, s.youngStart, s.youngEnd, s.youngStart, s.youngEnd);
    Redirected(mem0, s.color, mem1, fwd, s.oldStart, oldEnd, s.youngStart, s.youngEnd);
    RelocatedMarked(mem0, s.color, h.mem, fwd);
  }

  /** heap_tenure. */
  method Tenure(h: Heap) returns (ghost fwd: map<int, int>)
    requires ReadyToTenure(Bounds(h), h.mem) && Apart(Bounds(h), h.memoryOld + h.memoryOldLimit)
    modifies h`mem, h`memoryOldSize, h`nextOldFree, h`nextFree, h`remembered
    ensures Settled(old(Bounds(h)), old(h.mem), h.mem, h.memoryOld + h.memoryOldSize, fwd)
    ensures old(h.memoryOldSize) <= h.memoryOldSize <= h.memoryOldLimit && h.memoryOldSize <= old(h.memoryOldSize) + h.memoryYoungSize
    ensures Cursor(h.mem, h.memoryOld, h.memoryOld + h.memoryOldSize, h.nextOldFree) && h.nextFree == h.memoryYoung
    ensures forall x :: x in h.remembered <==>
              (x in old(h.remembered)
               || (IsTarget(fwd, x) && IsUsed(h.mem, x) && RefersTo(h.mem[x], h.memoryYoung, h.memoryYoung + h.memoryYoungSize)))
  {
    hide Tiled, Space, ReadyToTenure, Relocated, Copied, Starting, RefersTo, Swept, AllFollow, Coalesced, Injective, MovesIn,
         TenuredTo, Settled, Apart;
    ghost var s, mem0, limit := Bounds(h), h.mem, h.memoryOld + h.memoryOldLimit;
    var tenured;
    tenured, fwd := MoveMarked(h, s);
    ghost var mem1, oldEnd := h.mem, h.memoryOld + h.memoryOldSize;
    AfterMoving(s, mem0, mem1, oldEnd, fwd, limit);
    UpdateAll(h, s, mem0, fwd);
    ghost var mem3 := h.mem;
    TargetsUsed(s, mem0, mem3, fwd);
    RememberTenured(h, tenured);
    CoalesceFree(h, h.memoryYoung, h.memoryYoungSize);
    CoalesceKeeps(mem0, s.color, mem3, h.mem, fwd, s.youngStart, s.youngEnd);
    AfterCoalescing(s, mem0, mem1, mem3, h.mem, oldEnd, fwd);
    RememberedNow(s, mem3, h.mem, tenured, fwd, old(h.remembered), h.remembered);
    h.nextFree := h.memoryYoung;
  }

  lemma AfterMoving(s: Spaces, mem0: Memory, mem1: Memory, oldEnd: int, fwd: map<int, int>, limit: int)
    requires ReadyToTenure(s, mem0) && Apart(s, limit) && oldEnd <= limit && TenuredTo(s, mem0, mem1, oldEnd, fwd, s.youngEnd)
    ensures Copied(mem0, s.color, mem1, fwd) && Space(mem1, s.oldStart, oldEnd) && Space(mem1, s.youngStart, s.youngEnd)
    ensures forall k | IsUsed(mem1, k) :: AllFollow(mem1, fwd, mem1[k])
    ensures forall x | x in fwd :: IsMarked(mem0, s.color, x)
    ensures oldEnd <= s.youngStart || s.youngEnd <= s.oldStart
    ensures forall k | k in mem1 :: s.oldStart <= k < oldEnd || s.youngStart <= k < s.youngEnd
    ensures forall x | x in fwd :: s.oldStart <= fwd[x] < oldEnd
    ensures s.oldEnd <= oldEnd
  {
    hide Tiled, Space, AllFollow, Copied;
    TenuredCopies(s, mem0, mem1, oldEnd, fwd, limit);
    forall k | IsUsed(mem1, k) ensures AllFollow(mem1, fwd, mem1[k]) {
      CopiedFollow(mem0, s.color, mem1, fwd, k);
    }
    assert forall x :: x in fwd.Keys <==> x in MovesIn(mem0, s.color, s.youngStart, s.youngEnd);
  }

  lemma AfterOld(mem1: Memory, fwd: map<int, int>, s: Spaces, oldEnd: int)
    requires Space(mem1, s.oldStart, oldEnd) && Space(mem1, s.youngStart, s.youngEnd)
    requires forall k | IsUsed(mem1, k) :: AllFollow(mem1, fwd, mem1[k])
    requires oldEnd <= s.youngStart || s.youngEnd <= s.oldStart
    ensures var mem2 := RedirectIn(mem1, fwd, s.oldStart, oldEnd);
      Space(mem2, s.oldStart, oldEnd) && Space(mem2, s.youngStart, s.youngEnd)
      && forall k | s.youngStart <= k < s.youngEnd && IsUsed(mem2, k) :: AllFollow(mem2, fwd, mem2[k])
  {
    hide Tiled, Space, Follows;
    RedirectSpace(mem1, fwd, s.oldStart, oldEnd, s.oldStart, oldEnd);
    RedirectSpace(mem1, fwd, s.oldStart, oldEnd, s.youngStart, s.youngEnd);
    var mem2 := RedirectIn(mem1, fwd, s.oldStart, oldEnd);
    forall k | s.youngStart <= k < s.youngEnd && IsUsed(mem2, k)
      ensures AllFollow(mem2, fwd, mem2[k])
    {
      assert mem2[k] == mem1[k] && IsUsed(mem1, k);
      forall x | Points(mem2[k], x) ensures Follows(mem2, fwd, x) {
        RedirectSame(mem1, fwd, s.oldStart, oldEnd, x);
      }
    }
  }

  lemma TargetsUsed(s: Spaces, mem0: Memory, mem: Memory, fwd: map<int, int>)
    requires Relocated(mem0, s.color, mem, fwd) && forall x | x in fwd :: IsMarked(mem0, s.color, x)
    ensures forall y | IsTarget(fwd, y) :: IsUsed(mem, y)
  {
    forall y | IsTarget(fwd, y) ensures IsUsed(mem, y) {
      var x :| x in fwd && fwd[x] == y;
      assert Forward(fwd, x) == y;
    }
  }

  lemma AfterCoalescing(s: Spaces, mem0: Memory, mem1: Memory, mem3: Memory, mem': Memory, oldEnd: int, fwd: map<int, int>)
    requires TenuredTo(s, mem0, mem1, oldEnd, fwd, s.youngEnd) && mem3.Keys == mem1.Keys && Relocated(mem0, s.color, mem', fwd)
    requires Swept(mem3, mem', s.color, s.youngStart, s.youngEnd) && Space(mem3, s.oldStart, oldEnd)
    requires oldEnd <= s.youngStart || s.youngEnd <= s.oldStart
    ensures Settled(s, mem0, mem', oldEnd, fwd)
    ensures forall k | s.oldStart <= k < oldEnd :: k in mem3 <==> k in mem'
  {
    hide Tiled, Coalesced, KeptMarked, Relocated, MovesIn, Space;
    SpaceSame(mem3, mem', s.oldStart, oldEnd);
    assert forall k | k in mem' :: k in mem3 || s.youngStart <= k < s.youngEnd;
  }

  lemma RememberedNow(s: Spaces, mem3: Memory, mem': Memory, tenured: seq<int>, fwd: map<int, int>, remembered: set<int>, remembered': set<int>)
    requires remembered' == remembered + ToRemember(mem3, tenured, s.youngStart, s.youngEnd)
    requires forall y :: y in tenured <==> IsTarget(fwd, y)
    requires forall k | IsUsed(mem3, k) || IsUsed(mem', k) :: k in mem3 && k in mem' && mem'[k] == mem3[k]
    ensures forall x :: x in remembered' <==>
              (x in remembered || (IsTarget(fwd, x) && IsUsed(mem', x) && RefersTo(mem'[x], s.youngStart, s.youngEnd)))
  {
    hide RefersTo, IsTarget;
  }
}

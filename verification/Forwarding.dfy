/** Moving the marked young objects to old space, and redirecting every reference to one that moved. */
module Forwarding {
  import opened HeapModel
  import opened Marking
  import opened Roots
  import opened Sweeping
  import opened Allocating

  /** Where an object is after the move: fwd says it of the ones that moved. */
  function Forward(fwd: map<int, int>, x: int): int {
    if x in fwd then fwd[x] else x
  }

  function MoveOop(fwd: map<int, int>, o: Oop): Oop {
    if o.Ref? then Ref(Forward(fwd, o.addr)) else o
  }

  function MoveOops(fwd: map<int, int>, xs: seq<Oop>): (r: seq<Oop>)
    ensures |r| == |xs|
  {
    seq(|xs|, i requires 0 <= i < |xs| => MoveOop(fwd, xs[i]))
  }

  /** The same object with its map and every word that refers to an object redirected. */
  function Moved(fwd: map<int, int>, b: Block): (r: Block)
    requires b.Used?
    ensures r.Used? && Words(r) == Words(b)
  {
    b.(mapOop := Forward(fwd, b.mapOop), oops := MoveOops(fwd, b.oops))
  }

  /** The bounds of both spaces when tenuring begins, and the colour of marked objects. */
  datatype Spaces = Spaces(oldStart: int, oldEnd: int, youngStart: int, youngEnd: int, color: bool)

  /** To be tenured: marked and not pinned. */
  predicate Moves(mem: Memory, color: bool, x: int) {
    IsMarked(mem, color, x) && !IsPinned(mem, x)
  }

  ghost function MovesIn(mem: Memory, color: bool, a: int, b: int): set<int> {
    set x | x in mem && a <= x < b && Moves(mem, color, x)
  }

  /** What is left at a young address once tenuring has passed it. */
  function LeftBehind(mem: Memory, color: bool, fwd: map<int, int>, x: int): Block
    requires x in mem
  {
    if x in fwd then Forwarded(Words(mem[x]), fwd[x]) else if IsDead(mem, color, x) then Free(Words(mem[x])) else mem[x]
  }

  ghost predicate Injective(fwd: map<int, int>) {
    forall x, y | x in fwd && y in fwd && fwd[x] == fwd[y] :: x == y
  }

  ghost predicate IsTarget(fwd: map<int, int>, y: int) {
    exists x :: x in fwd && fwd[x] == y
  }

  /** Old space holds what it held, and a copy of each object that moved. */
  ghost predicate OldTenured(s: Spaces, mem0: Memory, mem: Memory, oldEnd: int, fwd: map<int, int>) {
    && Space(mem, s.oldStart, oldEnd) && s.oldEnd <= oldEnd && Injective(fwd)
    && (forall x | x in fwd :: s.oldStart <= fwd[x] < oldEnd && !IsUsed(mem0, fwd[x]))
    && (forall x | x in fwd :: IsUsed(mem0, x) && fwd[x] in mem && mem[fwd[x]] == mem0[x])
    && (forall k | s.oldStart <= k < oldEnd && IsUsed(mem0, k) :: k in mem && mem[k] == mem0[k])
    && (forall k | s.oldStart <= k < oldEnd && IsUsed(mem, k) :: IsUsed(mem0, k) || IsTarget(fwd, k))
  }

  /** Young space is divided as before; what tenuring has passed is moved, freed or pinned. */
  ghost predicate YoungTenured(s: Spaces, mem0: Memory, mem: Memory, fwd: map<int, int>, obj: int) {
    && Space(mem, s.youngStart, s.youngEnd) && fwd.Keys == MovesIn(mem0, s.color, s.youngStart, obj)
    && (forall k | s.youngStart <= k < s.youngEnd :: k in mem <==> k in mem0)
    && (forall k | s.youngStart <= k < obj && k in mem0 && k in mem :: mem[k] == LeftBehind(mem0, s.color, fwd, k))
    && (forall k | obj <= k < s.youngEnd && k in mem0 && k in mem :: mem[k] == mem0[k])
  }

  ghost predicate TenuredTo(s: Spaces, mem0: Memory, mem: Memory, oldEnd: int, fwd: map<int, int>, obj: int) {
    && OldTenured(s, mem0, mem, oldEnd, fwd) && YoungTenured(s, mem0, mem, fwd, obj)
    && (forall k | k in mem :: s.oldStart <= k < oldEnd || s.youngStart <= k < s.youngEnd)
    && s.youngStart <= obj <= s.youngEnd && (obj < s.youngEnd ==> obj in mem0)
    && oldEnd - s.oldEnd <= obj - s.youngStart
  }

  /** Old space, and all it may grow into, is apart from young space. */
  ghost predicate Apart(s: Spaces, limit: int) {
    s.oldEnd <= limit && (limit <= s.youngStart || s.youngEnd <= s.oldStart) && limit - s.oldEnd > s.youngEnd - s.youngStart
  }

  /** Nothing used starts outside the bounds. */
  ghost predicate Starting(s: Spaces, mem0: Memory) {
    && Space(mem0, s.oldStart, s.oldEnd) && Space(mem0, s.youngStart, s.youngEnd)
    && (forall k | k in mem0 :: s.oldStart <= k < s.oldEnd || s.youngStart <= k < s.youngEnd)
  }

  lemma TenureStarts(s: Spaces, mem0: Memory, limit: int)
    requires Starting(s, mem0) && Apart(s, limit)
    ensures TenuredTo(s, mem0, mem0, s.oldEnd, map[], s.youngStart)
  {
    hide Tiled;
    StartsTiled(mem0, s.youngStart, s.youngEnd);
    assert MovesIn(mem0, s.color, s.youngStart, s.youngStart) == {};
  }

  lemma MovesMore(mem: Memory, color: bool, a: int, obj: int, next: int)
    requires obj in mem && a <= obj < next && forall q | q in mem && obj < q < next :: false
    ensures MovesIn(mem, color, a, next) == MovesIn(mem, color, a, obj) + if Moves(mem, color, obj) then {obj} else {}
  {
  }

  /** The block tenuring has come to. */
  lemma TenureAt(s: Spaces, mem0: Memory, mem: Memory, oldEnd: int, fwd: map<int, int>, obj: int)
    requires Starting(s, mem0) && TenuredTo(s, mem0, mem, oldEnd, fwd, obj) && obj < s.youngEnd
    ensures obj in mem && obj in mem0 && mem[obj] == mem0[obj] && HEADER <= Words(mem0[obj]) && obj !in fwd
    ensures var next := obj + Words(mem0[obj]);
      next <= s.youngEnd && (next < s.youngEnd ==> next in mem0) && (forall q | q in mem0 && obj < q < next :: false)
      && MovesIn(mem0, s.color, s.youngStart, next)
      == MovesIn(mem0, s.color, s.youngStart, obj) + if Moves(mem0, s.color, obj) then {obj} else {}
  {
    hide Tiled;
    BlockEnds(mem0, s.youngStart, s.youngEnd, obj);
    MovesMore(mem0, s.color, s.youngStart, obj, obj + Words(mem0[obj]));
  }

  /** The block at obj is free, dead or pinned: only dead ones change. */
  lemma TenureSkips(s: Spaces, mem0: Memory, mem: Memory, oldEnd: int, fwd: map<int, int>, obj: int, limit: int)
    requires Starting(s, mem0) && Apart(s, limit) && TenuredTo(s, mem0, mem, oldEnd, fwd, obj) && obj < s.youngEnd
    requires obj in mem0 && !Moves(mem0, s.color, obj)
    ensures TenuredTo(s, mem0, FreeIfDead(mem, s.color, obj), oldEnd, fwd, obj + Words(mem0[obj]))
  {
    hide Tiled, Space, MovesIn, OldTenured, YoungTenured, FreeIfDead;
    TenureAt(s, mem0, mem, oldEnd, fwd, obj);
    FreeIfDeadIs(mem, mem, s.color, obj);
    OldUntouched(s, mem0, mem, FreeIfDead(mem, s.color, obj), oldEnd, fwd, obj);
    YoungSkipped(s, mem0, mem, fwd, obj, obj + Words(mem0[obj]));
    FreeIfDeadKeys(mem, s.color, obj);
  }

  lemma FreeIfDeadKeys(mem: Memory, color: bool, obj: int)
    requires obj in mem
    ensures FreeIfDead(mem, color, obj).Keys == mem.Keys
    ensures forall k | k in mem && k != obj :: FreeIfDead(mem, color, obj)[k] == mem[k]
    ensures FreeIfDead(mem, color, obj)[obj] == if IsDead(mem, color, obj) then Free(Words(mem[obj])) else mem[obj]
  {
  }

  lemma OldUntouched(s: Spaces, mem0: Memory, mem: Memory, mem': Memory, oldEnd: int, fwd: map<int, int>, obj: int)
    requires OldTenured(s, mem0, mem, oldEnd, fwd) && !(s.oldStart <= obj < oldEnd)
    requires obj in mem && mem' == FreeIfDead(mem, s.color, obj)
    ensures OldTenured(s, mem0, mem', oldEnd, fwd)
  {
    hide Tiled, Space, FreeIfDead;
    FreeIfDeadKeys(mem, s.color, obj);
    SpaceSame(mem, mem', s.oldStart, oldEnd);
  }

  lemma YoungSkipped(s: Spaces, mem0: Memory, mem: Memory, fwd: map<int, int>, obj: int, next: int)
    requires YoungTenured(s, mem0, mem, fwd, obj) && s.youngStart <= obj < s.youngEnd && obj < next && obj in mem0 && obj in mem
    requires mem[obj] == mem0[obj] && obj !in fwd && forall q | q in mem0 && obj < q < next :: false
    requires MovesIn(mem0, s.color, s.youngStart, next) == MovesIn(mem0, s.color, s.youngStart, obj)
    ensures YoungTenured(s, mem0, FreeIfDead(mem, s.color, obj), fwd, next)
  {
    hide Tiled, Space, MovesIn, FreeIfDead;
    FreeIfDeadKeys(mem, s.color, obj);
    FreeIfDeadSpace(mem, s.color, obj, s.youngStart, s.youngEnd);
  }

  /** The block at obj moves to p, where room was made for it. */
  lemma TenureMoves(s: Spaces, mem0: Memory, mem: Memory, oldEnd: int, fwd: map<int, int>, obj: int, limit: int,
                    mem1: Memory, oldEnd': int, p: int, b: Block)
    requires Starting(s, mem0) && Apart(s, limit) && TenuredTo(s, mem0, mem, oldEnd, fwd, obj) && obj < s.youngEnd
    requires obj in mem0 && Moves(mem0, s.color, obj) && b.Used? && Words(b) == Words(mem0[obj])
    requires Placed(mem, mem1, s.oldStart, oldEnd, oldEnd', p, b)
    ensures obj in mem1
    ensures TenuredTo(s, mem0, Carry(mem1, p, obj), oldEnd', fwd[obj := p], obj + Words(mem0[obj]))
  {
    hide Tiled, Space, MovesIn, OldTenured, YoungTenured, Carry;
    TenureAt(s, mem0, mem, oldEnd, fwd, obj);
    PlacedBounds(mem, mem1, s.oldStart, oldEnd, oldEnd', p, b, obj);
    assert oldEnd' <= limit;
    Carried(mem1, p, obj);
    MovedOld(s, mem0, mem, oldEnd, fwd, obj, mem1, oldEnd', p, b);
    PlacedOutside(mem, mem1, s.oldStart, oldEnd, oldEnd', p, b, s.youngStart, s.youngEnd);
    MovedYoung(s, mem0, mem, mem1, fwd, obj, p, obj + Words(mem0[obj]));
  }

  /** The contents of obj go to p, and p is noted in its place. */
  function Carry(mem: Memory, p: int, obj: int): Memory
    requires obj in mem
  {
    mem[p := mem[obj]][obj := Forwarded(Words(mem[obj]), p)]
  }

  lemma Carried(mem: Memory, p: int, obj: int)
    requires obj in mem && p in mem && p != obj
    ensures var mem' := Carry(mem, p, obj);
      mem'.Keys == mem.Keys && mem'[p] == mem[obj] && mem'[obj] == Forwarded(Words(mem[obj]), p)
      && forall k | k in mem && k != p && k != obj :: mem'[k] == mem[k]
  {
  }

  lemma PlacedBounds(mem: Memory, mem': Memory, a: int, end: int, end': int, p: int, b: Block, obj: int)
    requires Placed(mem, mem', a, end, end', p, b)
    ensures a <= p < end' && p in mem' && mem'[p] == b && !IsUsed(mem, p) && end <= end' <= end + Words(b)
    ensures IsUsed(mem, obj) ==> p != obj && obj in mem' && mem'[obj] == mem[obj]
  {
  }

  lemma PlacedOutside(mem: Memory, mem': Memory, a: int, end: int, end': int, p: int, b: Block, lo: int, hi: int)
    requires Placed(mem, mem', a, end, end', p, b) && (end' <= lo || hi <= a)
    ensures forall k | lo <= k < hi :: (k in mem <==> k in mem') && (k in mem ==> mem'[k] == mem[k])
    ensures forall k | k in mem' && !(a <= k < end') :: k in mem
  {
  }

  lemma MovedYoung(s: Spaces, mem0: Memory, mem: Memory, mem1: Memory, fwd: map<int, int>, obj: int, p: int, next: int)
    requires YoungTenured(s, mem0, mem, fwd, obj) && s.youngStart <= obj < s.youngEnd && obj < next && obj in mem0 && obj in mem1
    requires forall k | s.youngStart <= k < s.youngEnd :: (k in mem <==> k in mem1) && (k in mem ==> mem1[k] == mem[k])
    requires mem1[obj] == mem0[obj] && obj !in fwd && p in mem1 && !(s.youngStart <= p < s.youngEnd)
    requires forall q | q in mem0 && obj < q < next :: false
    requires MovesIn(mem0, s.color, s.youngStart, next) == MovesIn(mem0, s.color, s.youngStart, obj) + {obj}
    ensures YoungTenured(s, mem0, Carry(mem1, p, obj), fwd[obj := p], next)
  {
    hide Tiled, Space, MovesIn, Carry;
    Carried(mem1, p, obj);
    SpaceSame(mem, Carry(mem1, p, obj), s.youngStart, s.youngEnd);
  }

  lemma MovedOld(s: Spaces, mem0: Memory, mem: Memory, oldEnd: int, fwd: map<int, int>, obj: int, mem1: Memory, oldEnd': int, p: int, b: Block)
    requires OldTenured(s, mem0, mem, oldEnd, fwd) && Placed(mem, mem1, s.oldStart, oldEnd, oldEnd', p, b) && b.Used?
    requires obj in mem0 && obj in mem1 && mem1[obj] == mem0[obj] && mem0[obj].Used? && !(s.oldStart <= obj < oldEnd') && obj !in fwd
    requires Words(b) == Words(mem0[obj])
    requires forall k | k in mem0 && s.oldEnd <= k :: k >= oldEnd' || k < s.oldStart
    requires forall k | k in mem && oldEnd <= k :: k >= oldEnd' || k < s.oldStart
    ensures OldTenured(s, mem0, Carry(mem1, p, obj), oldEnd', fwd[obj := p])
  {
    hide Tiled, Space, Carry;
    var mem' := Carry(mem1, p, obj);
    var fwd' := fwd[obj := p];
    Carried(mem1, p, obj);
    SpaceSame(mem1, mem', s.oldStart, oldEnd');
    forall x | x in fwd ensures fwd[x] in mem' && mem'[fwd[x]] == mem0[x] && fwd[x] != p {
      assert IsUsed(mem, fwd[x]) && mem1[fwd[x]] == mem[fwd[x]];
    }
    assert !IsUsed(mem0, p);
    forall k | s.oldStart <= k < oldEnd' && IsUsed(mem', k) ensures IsUsed(mem0, k) || IsTarget(fwd', k) {
      if k == p {
        assert fwd'[obj] == p;
      } else {
        assert IsUsed(mem1, k) && IsUsed(mem, k);
        if IsTarget(fwd, k) {
          var x :| x in fwd && fwd[x] == k;
          assert fwd'[x] == k;
        }
      }
    }
  }
}

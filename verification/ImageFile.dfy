/** prim_save_image and the loading of an image when the virtual machine starts. */
module ImageFiles {
  import opened Wrappers
  import opened HeapModel
  import opened Marking
  import opened Roots
  import opened Forwarding
  import opened Collecting
  import opened ForwardTables
  import opened Images

  /** An object's references looked up in the table, where all of them are. */
  method AdjustWithTable(table: ForwardTable, b: Block, ghost g: map<int, int>) returns (b': Block)
    requires Represents(table.entries[..], g) && b.Used? && b.mapOop in g && forall y | Ref(y) in b.oops :: y in g
    ensures b' == Moved(g, b)
  {
    hide Represents, Slot;
    SlotFinds(table.entries[..], g, b.mapOop);
    var entry := table.Get(b.mapOop);
    b' := b.(mapOop := table.entries[entry.value].value.to);
    var i := 0;
    while i < |b'.oops|
      invariant 0 <= i <= |b.oops| && b'.Used? && |b'.oops| == |b.oops|
      invariant b' == b.(mapOop := Forward(g, b.mapOop), oops := b'.oops)
      invariant forall j | 0 <= j < |b.oops| :: b'.oops[j] == if j < i then MoveOop(g, b.oops[j]) else b.oops[j]
    {
      match b'.oops[i] {
        case Ref(x) =>
          assert Ref(x) in b.oops;
          SlotFinds(table.entries[..], g, x);
          entry := table.Get(x);
          b' := b'.(oops := b'.oops[i := Ref(table.entries[entry.value].value.to)]);
        case Small(_) =>
      }
      i := i + 1;
    }
    assert b'.oops == MoveOops(g, b.oops);
  }

  /** adjust_fields_by. */
  method AdjustFieldsBy(b: Block, d: int) returns (b': Block)
    requires b.Used?
    ensures b' == ShiftedBlock(b, d)
  {
    b' := b.(mapOop := b.mapOop + d);
    var i := 0;
    while i < |b'.oops|
      invariant 0 <= i <= |b.oops| && b'.Used? && |b'.oops| == |b.oops|
      invariant b' == b.(mapOop := b.mapOop + d, oops := b'.oops)
      invariant forall j | 0 <= j < |b.oops| :: b'.oops[j] == if j < i then ShiftOop(b.oops[j], d) else b.oops[j]
    {
      match b'.oops[i] {
        case Ref(x) => b' := b'.(oops := b'.oops[i := Ref(x + d)]);
        case Small(_) =>
      }
      i := i + 1;
    }
    assert b'.oops == ShiftedBlock(b, d).oops;
  }

  /** What a walk over a memory makes of its used blocks. */
  datatype Change = Redirect(g: map<int, int>) | Shift(d: int) | ZeroPins

  function Changed(c: Change, b: Block): (r: Block)
    ensures Words(r) == Words(b) && (r.Used? <==> b.Used?)
  {
    if !b.Used? then b
    else
      match c
      case Redirect(g) => Moved(g, b)
      case Shift(d) => ShiftedBlock(b, d)
      case ZeroPins => WithoutPins(b)
  }

  /** The blocks below address o are changed. */
  ghost predicate ChangedTo(c: Change, mem0: Memory, mem: Memory, o: int) {
    mem.Keys == mem0.Keys && forall k | k in mem && k in mem0 :: mem[k] == if k < o then Changed(c, mem0[k]) else mem0[k]
  }

  lemma ChangeOne(c: Change, mem0: Memory, mem: Memory, a: int, b: int, o: int)
    requires Space(mem0, a, b) && a <= o < b && o in mem0 && ChangedTo(c, mem0, mem, o)
    ensures o in mem && mem[o] == mem0[o] && HEADER <= Words(mem0[o])
    ensures Tiled(mem0, a, o + Words(mem0[o])) && o + Words(mem0[o]) <= b && (o + Words(mem0[o]) < b ==> o + Words(mem0[o]) in mem0)
    ensures (forall k | k in mem0 :: a <= k < b) ==> ChangedTo(c, mem0, mem[o := Changed(c, mem0[o])], o + Words(mem0[o]))
  {
    hide Tiled, Changed;
    BlockEnds(mem0, a, b, o);
  }

  lemma ChangedSpace(c: Change, mem0: Memory, mem: Memory, a: int, b: int)
    requires Space(mem0, a, b) && ChangedTo(c, mem0, mem, b)
    ensures Space(mem, a, b)
  {
    hide Moved, ShiftedBlock, WithoutPins;
    SpaceSame(mem0, mem, a, b);
  }

  lemma WalkBegins(mem: Memory, a: int, b: int)
    requires Space(mem, a, b)
    ensures Tiled(mem, a, a) && a <= b && (a < b ==> a in mem)
  {
  }

  /** A stretch of memory that holds an image, from start up to end. */
  class ImageMemory {
    var mem: Memory
    var start: int
    var end: int

    ghost predicate Valid()
      reads this
    {
      Space(mem, start, end) && forall k | k in mem :: start <= k < end
    }

    lemma ValidWhen()
      requires Space(mem, start, end) && forall k | k in mem :: start <= k < end
      ensures Valid()
    {
    }

    lemma ValidIs()
      requires Valid()
      ensures Space(mem, start, end)
    {
    }

    constructor (mem: Memory, start: int, end: int)
      ensures this.mem == mem && this.start == start && this.end == end
    {
      this.mem := mem;
      this.start := start;
      this.end := end;
    }

    /** The objects that g moves have been copied, and the table says where to. */
    ghost predicate Written(heap: Memory, table: ForwardTable, g: map<int, int>)
      reads this, table.entries
    {
      Represents(table.entries[..], g) && Holds(heap, g, mem, start, end) && Copies(heap, g, mem)
    }

    /** The part of copy_used_objects for one object. */
    method CopyObject(heap: Memory, x: int, table: ForwardTable, ghost g: map<int, int>) returns (ok: bool)
      requires Written(heap, table, g) && IsUsed(heap, x) && x !in g
      modifies this`mem, this`end, table.entries
      ensures ok <==> |g| < table.entries.Length
      ensures ok ==> Written(heap, table, g[x := old(end)])
    {
      hide Represents, Holds, Copies;
      ok := table.Add(x, end, g);
      if ok {
        CopyOne(heap, g, mem, start, end, x);
        mem := mem[end := heap[x]];
        end := end + Words(mem[end]);
      }
    }

    /** copy_used_objects: g0 says what was copied before; it fails just when the table has no room. */
    method CopyUsedObjects(heap: Memory, a: int, b: int, table: ForwardTable, ghost g0: map<int, int>) returns (ok: bool, ghost g: map<int, int>)
      requires Written(heap, table, g0) && Space(heap, a, b) && forall x | x in g0 :: !(a <= x < b)
      modifies this`mem, this`end, table.entries
      ensures ok <==> |g0.Keys + UsedIn(heap, a, b)| <= table.entries.Length
      ensures ok ==> Written(heap, table, g) && g.Keys == g0.Keys + UsedIn(heap, a, b)
    {
      hide *;
      g := g0;
      var readObject := a;
      WalkBegins(heap, a, b);
      NoneWalked(heap, a, g0);
      while readObject < b
        invariant a <= readObject <= b && (readObject < b ==> readObject in heap)
        invariant Written(heap, table, g) && Walked(heap, a, readObject, g0, g)
      {
        NextBlock(heap, a, b, readObject);
        if !IsFree(heap[readObject]) {
          NotCopied(heap, a, b, readObject, g0, g);
          NoRoomFor(heap, a, b, readObject, g0, g);
          Copied(heap, a, b, readObject, g0, g, end);
          ghost var y := end;
          ok := CopyObject(heap, readObject, table, g);
          if !ok {
            return false, g;
          }
          g := g[readObject := y];
        } else {
          Passed(heap, a, b, readObject, g0, g);
        }
        readObject := readObject + Words(heap[readObject]);
      }
      WrittenFits(heap, table, g);
      WalkedIs(heap, a, b, g0, g);
      ok := true;
    }

    lemma WrittenWhen(heap: Memory, table: ForwardTable, g: map<int, int>)
      requires Represents(table.entries[..], g) && Holds(heap, g, mem, start, end) && Copies(heap, g, mem)
      ensures Written(heap, table, g)
    {
    }

    lemma WrittenFits(heap: Memory, table: ForwardTable, g: map<int, int>)
      requires Written(heap, table, g)
      ensures |g.Keys| <= table.entries.Length
    {
      hide Represents;
      NoMoreThanFit(table.entries[..], g);
      assert |g.Keys| == |g|;
    }

    /** adjust_object_fields_with_table. */
    method AdjustObjectFieldsWithTable(table: ForwardTable, ghost g: map<int, int>)
      requires Valid() && Represents(table.entries[..], g)
      requires forall k | k in mem :: mem[k].Used? && forall y | Points(mem[k], y) :: y in g
      modifies this`mem
      ensures Valid() && ChangedTo(Redirect(g), old(mem), mem, end)
    {
      hide Represents, Tiled, Space, Changed, Moved;
      ghost var mem0 := mem;
      WalkBegins(mem, start, end);
      var o := start;
      while o < end
        invariant start <= o <= end && (o < end ==> o in mem0) && ChangedTo(Redirect(g), mem0, mem, o)
      {
        ChangeOne(Redirect(g), mem0, mem, start, end, o);
        PointsOf(mem[o]);
        RedirectIs(g, mem[o]);
        var adjusted := AdjustWithTable(table, mem[o], g);
        mem := mem[o := adjusted];
        o := o + Words(mem[o]);
      }
      ChangedSpace(Redirect(g), mem0, mem, start, end);
    }

    /** adjust_oop_pointers_from. */
    method AdjustOopPointersFrom(d: int)
      requires Valid()
      modifies this`mem
      ensures Valid() && ChangedTo(Shift(d), old(mem), mem, end)
    {
      hide Tiled, Space, Changed, ShiftedBlock;
      ghost var mem0 := mem;
      WalkBegins(mem, start, end);
      var o := start;
      while o < end
        invariant start <= o <= end && (o < end ==> o in mem0) && ChangedTo(Shift(d), mem0, mem, o)
      {
        ChangeOne(Shift(d), mem0, mem, start, end, o);
        ShiftIs(d, mem[o]);
        if !IsFree(mem[o]) {
          var adjusted := AdjustFieldsBy(mem[o], d);
          mem := mem[o := adjusted];
        } else {
          assert mem == mem[o := mem[o]];
        }
        o := o + Words(mem[o]);
      }
      ChangedSpace(Shift(d), mem0, mem, start, end);
    }

    /** heap_zero_pin_counts_from. */
    method ZeroPinCounts()
      requires Valid()
      modifies this`mem
      ensures Valid() && ChangedTo(ZeroPins, old(mem), mem, end)
    {
      hide Tiled, Space, Changed;
      ghost var mem0 := mem;
      WalkBegins(mem, start, end);
      var o := start;
      while o < end
        invariant start <= o <= end && (o < end ==> o in mem0) && ChangedTo(ZeroPins, mem0, mem, o)
      {
        ChangeOne(ZeroPins, mem0, mem, start, end, o);
        ZeroIs(mem[o]);
        if !IsFree(mem[o]) {
          mem := mem[o := mem[o].(pins := 0)];
        } else {
          assert mem == mem[o := mem[o]];
        }
        o := o + Words(mem[o]);
      }
      ChangedSpace(ZeroPins, mem0, mem, start, end);
    }
  }

  lemma PointsOf(b: Block)
    requires b.Used?
    ensures Points(b, b.mapOop) && forall y | Ref(y) in b.oops :: Points(b, y)
  {
  }

  lemma RedirectIs(g: map<int, int>, b: Block)
    requires b.Used?
    ensures Changed(Redirect(g), b) == Moved(g, b)
  {
  }

  lemma ShiftIs(d: int, b: Block)
    ensures Changed(Shift(d), b) == ShiftedBlock(b, d) && (IsFree(b) ==> Changed(Shift(d), b) == b)
  {
  }

  lemma ZeroIs(b: Block)
    ensures Changed(ZeroPins, b) == if b.Used? then b.(pins := 0) else b
  {
  }

  /** What was copied before, and the used blocks from a to o, have been copied. */
  ghost predicate Walked(heap: Memory, a: int, o: int, g0: map<int, int>, g: map<int, int>) {
    g.Keys == g0.Keys + UsedIn(heap, a, o)
  }

  lemma WalkedIs(heap: Memory, a: int, b: int, g0: map<int, int>, g: map<int, int>)
    requires Walked(heap, a, b, g0, g)
    ensures g.Keys == g0.Keys + UsedIn(heap, a, b)
  {
  }

  lemma NoneWalked(heap: Memory, a: int, g0: map<int, int>)
    ensures Walked(heap, a, a, g0, g0)
  {
    assert UsedIn(heap, a, a) == {};
  }

  lemma NextBlock(heap: Memory, a: int, b: int, o: int)
    requires Space(heap, a, b) && a <= o < b && o in heap
    ensures 0 < Words(heap[o]) && o + Words(heap[o]) <= b && (o + Words(heap[o]) < b ==> o + Words(heap[o]) in heap)
    ensures IsUsed(heap, o) <==> !IsFree(heap[o])
  {
    BlockEnds(heap, a, b, o);
  }

  lemma Passed(heap: Memory, a: int, b: int, o: int, g0: map<int, int>, g: map<int, int>)
    requires Space(heap, a, b) && a <= o < b && o in heap && IsFree(heap[o]) && Walked(heap, a, o, g0, g)
    ensures Walked(heap, a, o + Words(heap[o]), g0, g)
  {
    BlockEnds(heap, a, b, o);
    UsedMore(heap, a, o, o + Words(heap[o]));
  }

  lemma NotCopied(heap: Memory, a: int, b: int, o: int, g0: map<int, int>, g: map<int, int>)
    requires a <= o < b && IsUsed(heap, o) && (forall x | x in g0 :: !(a <= x < b)) && Walked(heap, a, o, g0, g)
    ensures o !in g
  {
    hide *;
    NotInside(heap, a, b, o, g0);
    WalkedIs(heap, a, o, g0, g);
  }

  /** If the table has no room for the next used block, it is too small. */
  lemma NoRoomFor(heap: Memory, a: int, b: int, o: int, g0: map<int, int>, g: map<int, int>)
    requires a <= o < b && IsUsed(heap, o) && (forall x | x in g0 :: !(a <= x < b)) && Walked(heap, a, o, g0, g) && o !in g
    ensures |g| < |g0.Keys + UsedIn(heap, a, b)|
  {
    hide *;
    NotInside(heap, a, b, o, g0);
    WalkedIs(heap, a, o, g0, g);
    OneMore(g.Keys, g0.Keys, UsedIn(heap, a, o), UsedIn(heap, a, b), o);
    TooMany(g, g0.Keys + UsedIn(heap, a, b), o);
  }

  lemma Copied(heap: Memory, a: int, b: int, o: int, g0: map<int, int>, g: map<int, int>, y: int)
    requires Space(heap, a, b) && a <= o < b && IsUsed(heap, o) && (forall x | x in g0 :: !(a <= x < b)) && Walked(heap, a, o, g0, g)
    ensures o in heap && Walked(heap, a, o + Words(heap[o]), g0, g[o := y])
  {
    hide *;
    NotInside(heap, a, b, o, g0);
    UsedNext(heap, a, b, o);
    WalkedIs(heap, a, o, g0, g);
    KeysMore(g, o, y);
    OneMore(g.Keys, g0.Keys, UsedIn(heap, a, o), UsedIn(heap, a, b), o);
    WalkedWhen(heap, a, o + Words(heap[o]), g0, g[o := y]);
  }

  lemma KeysMore(g: map<int, int>, x: int, y: int)
    ensures g[x := y].Keys == g.Keys + {x}
  {
  }

  lemma OneMore(keys: set<int>, before: set<int>, part: set<int>, all: set<int>, x: int)
    requires keys == before + part && part <= all && x in all
    ensures keys + {x} == before + (part + {x}) && keys <= before + all && x in before + all
  {
  }

  lemma UsedNext(heap: Memory, a: int, b: int, o: int)
    requires Space(heap, a, b) && a <= o < b && IsUsed(heap, o)
    ensures UsedIn(heap, a, o + Words(heap[o])) == UsedIn(heap, a, o) + {o}
  {
    BlockEnds(heap, a, b, o);
    UsedMore(heap, a, o, o + Words(heap[o]));
  }

  lemma WalkedWhen(heap: Memory, a: int, o: int, g0: map<int, int>, g: map<int, int>)
    requires g.Keys == g0.Keys + UsedIn(heap, a, o)
    ensures Walked(heap, a, o, g0, g)
  {
  }

  lemma NotInside(heap: Memory, a: int, b: int, o: int, g0: map<int, int>)
    requires a <= o < b && IsUsed(heap, o) && forall x | x in g0 :: !(a <= x < b)
    ensures o in heap && o !in g0.Keys + UsedIn(heap, a, o) && o in UsedIn(heap, a, b) && UsedIn(heap, a, o) <= UsedIn(heap, a, b)
  {
  }
}

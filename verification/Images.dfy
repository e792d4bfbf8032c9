/** Images: the objects of both spaces, copied one after the other, rebased to address zero, and loaded at any other address. */
module Images {
  import opened Wrappers
  import opened HeapModel
  import opened Marking
  import opened Roots
  import opened Forwarding
  import opened Collecting
  import opened ForwardTables

  ghost function UsedIn(mem: Memory, a: int, b: int): set<int> {
    set x | x in mem && a <= x < b && IsUsed(mem, x)
  }

  ghost function UsedBlocks(mem: Memory): set<int> {
    set x | x in mem && IsUsed(mem, x)
  }

  /** The image from a up to b is tiled by used blocks, one for each object that g moves. */
  ghost predicate Holds(mem: Memory, g: map<int, int>, image: Memory, a: int, b: int) {
    && Space(image, a, b) && Injective(g)
    && (forall k | k in image :: a <= k < b && IsTarget(g, k))
    && (forall x | x in g :: IsUsed(mem, x) && IsUsed(image, g[x]))
  }

  /** They are copies as they were in the heap. */
  ghost predicate Copies(mem: Memory, g: map<int, int>, image: Memory) {
    forall x | x in g && x in mem && g[x] in image :: image[g[x]] == mem[x]
  }

  // ---------- copying ----------

  lemma Append(image: Memory, a: int, b: int, block: Block)
    requires Space(image, a, b) && HEADER <= Words(block) && forall k | k in image :: k < b
    ensures Space(image[b := block], a, b + Words(block)) && a <= b < b + Words(block)
  {
    var image' := image[b := block];
    var c := b + Words(block);
    SpaceSame(image, image', a, b);
    assert Tiled(image', c, c);
    assert Tiled(image', b, c);
    TiledConcat(image', a, b, c);
    forall k | k in image' && a <= k < c ensures Tiled(image', a, k) {
      if k >= b {
        assert k == b;
      }
    }
  }

  /** One more object is copied to the end of the image. */
  lemma CopyOne(mem: Memory, g: map<int, int>, image: Memory, a: int, b: int, x: int)
    requires Holds(mem, g, image, a, b) && Copies(mem, g, image) && IsUsed(mem, x) && x !in g
    ensures Holds(mem, g[x := b], image[b := mem[x]], a, b + Words(mem[x])) && Copies(mem, g[x := b], image[b := mem[x]])
  {
    hide Space;
    Append(image, a, b, mem[x]);
    var g', image' := g[x := b], image[b := mem[x]];
    assert g'[x] == b;
    forall z | z in g ensures g'[z] == g[z] && g[z] in image && g[z] < b {
      assert IsUsed(image, g[z]);
    }
    forall k | k in image' ensures IsTarget(g', k) {
      if k != b {
        var z :| z in g && g[z] == k;
        assert g'[z] == k;
      }
    }
  }

  lemma UsedMore(mem: Memory, a: int, obj: int, next: int)
    requires obj in mem && a <= obj < next && forall q | q in mem && obj < q < next :: false
    ensures UsedIn(mem, a, next) == UsedIn(mem, a, obj) + if IsUsed(mem, obj) then {obj} else {}
  {
  }

  lemma TooMany(g: map<int, int>, all: set<int>, x: int)
    requires g.Keys <= all && x in all && x !in g
    ensures |g| < |all|
  {
    Fewer(g.Keys, all, x);
    assert |g.Keys| == |g|;
  }

  lemma Fewer(a: set<int>, b: set<int>, x: int)
    requires a <= b && x in b && x !in a
    ensures |a| < |b|
  {
    SubsetSize(a + {x}, b);
  }

  lemma {:induction false} SubsetSize(a: set<int>, b: set<int>)
    requires a <= b
    ensures |a| <= |b|
    decreases |a|
  {
    if a != {} {
      NotEmpty(a);
      var x :| x in a;
      SubsetSize(a - {x}, b - {x});
    }
  }

  // ---------- redirecting ----------

  /** The block with all its addresses moved by the same distance. */
  function ShiftOop(o: Oop, d: int): Oop {
    if o.Ref? then Ref(o.addr + d) else o
  }

  function ShiftedBlock(b: Block, d: int): Block {
    if b.Used? then b.(mapOop := b.mapOop + d, oops := seq(|b.oops|, i requires 0 <= i < |b.oops| => ShiftOop(b.oops[i], d))) else b
  }

  function WithoutPins(b: Block): Block {
    if b.Used? then b.(pins := 0) else b
  }

  /** The same words at addresses d higher: what writing an image to a file and reading it elsewhere does. */
  function Rebased(mem: Memory, d: int): Memory {
    map k | k in Addresses(mem, d) :: mem[k - d]
  }

  function Addresses(mem: Memory, d: int): set<int> {
    set x | x in mem :: x + d
  }

  lemma RebasedAt(mem: Memory, d: int, k: int)
    ensures k in Rebased(mem, d) <==> k - d in mem
    ensures k - d in mem ==> Rebased(mem, d)[k] == mem[k - d]
  {
    if k - d in mem {
      assert k == (k - d) + d;
    }
  }

  lemma {:induction false} RebasedTiled(mem: Memory, d: int, a: int, b: int)
    requires Tiled(mem, a, b)
    ensures Tiled(Rebased(mem, d), a + d, b + d)
    decreases b - a
  {
    hide Rebased;
    if a != b {
      RebasedAt(mem, d, a + d);
      TiledOrder(mem, a + Words(mem[a]), b);
      RebasedTiled(mem, d, a + Words(mem[a]), b);
    }
  }

  lemma RebasedSpace(mem: Memory, d: int, a: int, b: int)
    requires Space(mem, a, b)
    ensures Space(Rebased(mem, d), a + d, b + d)
  {
    hide Rebased;
    RebasedTiled(mem, d, a, b);
    forall k | k in Rebased(mem, d) && a + d <= k < b + d ensures Tiled(Rebased(mem, d), a + d, k) {
      RebasedAt(mem, d, k);
      RebasedTiled(mem, d, a, k - d);
    }
  }

  // ---------- isomorphic images ----------

  function ShiftMap(g: map<int, int>, d: int): map<int, int> {
    map x | x in g :: g[x] + d
  }

  /** An object's copy: its references redirected by g, everything else equal; a loaded one has no pins. */
  function Copy(g: map<int, int>, b: Block, loaded: bool): Block
    requires b.Used?
  {
    if loaded then WithoutPins(Moved(g, b)) else Moved(g, b)
  }

  /** The image is isomorphic to the heap: g takes the used objects one to one to the blocks that tile it, all of them used. */
  ghost predicate ImageOf(mem: Memory, g: map<int, int>, image: Memory, a: int, b: int, loaded: bool) {
    && g.Keys == UsedBlocks(mem) && Holds(mem, g, image, a, b)
    && forall x | x in g && IsUsed(mem, x) && g[x] in image :: image[g[x]] == Copy(g, mem[x], loaded)
  }

  /** Moving all addresses by d, those of the blocks and those in them, gives an image again. */
  lemma ShiftedHolds(mem: Memory, g: map<int, int>, image: Memory, a: int, b: int, image': Memory, d: int)
    requires Holds(mem, g, image, a, b)
    requires SameShape(image, image', d) && Space(image', a + d, b + d)
    ensures Holds(mem, ShiftMap(g, d), image', a + d, b + d)
  {
    hide Space, MovesUp, IsTarget, ShiftMap;
    var g' := ShiftMap(g, d);
    ShiftMapIs(g, d);
    forall k | k in image' ensures a + d <= k < b + d && IsTarget(g', k) {
      UpAt(image, image', d, k - d);
      TargetUp(g, k - d, d);
    }
    forall x | x in g' ensures IsUsed(mem, x) && IsUsed(image', g'[x]) {
      UpAt(image, image', d, g[x]);
    }
  }

  lemma ShiftMapIs(g: map<int, int>, d: int)
    ensures ShiftMap(g, d).Keys == g.Keys && (forall x | x in g :: ShiftMap(g, d)[x] == g[x] + d)
    ensures Injective(g) ==> Injective(ShiftMap(g, d))
  {
  }

  lemma TargetUp(g: map<int, int>, k: int, d: int)
    requires IsTarget(g, k)
    ensures IsTarget(ShiftMap(g, d), k + d)
  {
    var x :| x in g && g[x] == k;
    assert ShiftMap(g, d)[x] == k + d;
  }

  /** There is a block d higher just when there is one here, and a used one for a used one. */
  predicate MovesUp(image: Memory, image': Memory, d: int, k: int) {
    (k in image <==> k + d in image') && (k in image && k + d in image' && image[k].Used? ==> image'[k + d].Used?)
  }

  ghost predicate SameShape(image: Memory, image': Memory, d: int) {
    forall k :: MovesUp(image, image', d, k)
  }

  lemma UpAt(image: Memory, image': Memory, d: int, k: int)
    requires SameShape(image, image', d)
    ensures k in image <==> k + d in image'
    ensures IsUsed(image, k) ==> IsUsed(image', k + d)
  {
    assert MovesUp(image, image', d, k);
  }

  lemma ShiftedCopy(mem: Memory, g: map<int, int>, x: int, d: int, loaded: bool)
    requires g.Keys == UsedBlocks(mem) && Sound(mem) && IsUsed(mem, x)
    ensures ShiftedBlock(Copy(g, mem[x], loaded), d) == Copy(ShiftMap(g, d), mem[x], loaded)
  {
    var b, g' := mem[x], ShiftMap(g, d);
    assert Points(b, b.mapOop);
    assert IsUsed(mem, b.mapOop);
    assert b.mapOop in g;
    forall i | 0 <= i < |b.oops| ensures ShiftOop(MoveOop(g, b.oops[i]), d) == MoveOop(g', b.oops[i]) {
      if b.oops[i].Ref? {
        assert Ref(b.oops[i].addr) in b.oops;
        assert Points(b, b.oops[i].addr);
        assert IsUsed(mem, b.oops[i].addr);
        assert b.oops[i].addr in g;
      }
    }
  }

  /** The references of the copies are just the copies of the references. */
  lemma SamePoints(mem: Memory, g: map<int, int>, image: Memory, a: int, b: int, loaded: bool, x: int, y: int)
    requires Sound(mem) && ImageOf(mem, g, image, a, b, loaded) && x in g && y in g
    ensures g[x] in image && x in mem && (Points(mem[x], y) <==> Points(image[g[x]], g[y]))
  {
    hide Space;
    assert IsUsed(mem, x) && IsUsed(image, g[x]);
    var bx, cx := mem[x], image[g[x]];
    assert cx == Copy(g, bx, loaded);
    assert cx.oops == MoveOops(g, bx.oops) && cx.mapOop == Forward(g, bx.mapOop);
    if Ref(y) in bx.oops {
      var i :| 0 <= i < |bx.oops| && bx.oops[i] == Ref(y);
      assert cx.oops[i] == Ref(g[y]);
    }
    if Ref(g[y]) in cx.oops {
      var i :| 0 <= i < |cx.oops| && cx.oops[i] == Ref(g[y]);
      assert bx.oops[i].Ref?;
      assert Points(bx, bx.oops[i].addr);
      assert IsUsed(mem, bx.oops[i].addr);
      assert bx.oops[i].addr in g;
    }
    assert Points(bx, bx.mapOop);
    assert IsUsed(mem, bx.mapOop);
    assert bx.mapOop in g;
  }

  /** A sound heap has a sound image. */
  lemma SoundImage(mem: Memory, g: map<int, int>, image: Memory, a: int, b: int, loaded: bool)
    requires Sound(mem) && ImageOf(mem, g, image, a, b, loaded)
    ensures Sound(image)
  {
    hide Space;
    forall k, z | k in image && Points(image[k], z) ensures IsUsed(image, z) {
      assert IsTarget(g, k);
      var x :| x in g && g[x] == k;
      var y := Referred(mem, g, image, a, b, loaded, x, z);
      assert IsUsed(image, g[y]);
    }
  }

  /** What a copy refers to is the copy of something the object refers to. */
  lemma Referred(mem: Memory, g: map<int, int>, image: Memory, a: int, b: int, loaded: bool, x: int, z: int) returns (y: int)
    requires Sound(mem) && ImageOf(mem, g, image, a, b, loaded) && x in g && g[x] in image && Points(image[g[x]], z)
    ensures y in g && g[y] == z && x in mem && Points(mem[x], y)
  {
    hide Space;
    assert IsUsed(mem, x);
    var bx, cx := mem[x], image[g[x]];
    assert cx == Copy(g, bx, loaded);
    assert cx.oops == MoveOops(g, bx.oops);
    if cx.mapOop == z {
      y := bx.mapOop;
    } else {
      var i :| 0 <= i < |cx.oops| && cx.oops[i] == Ref(z);
      assert bx.oops[i].Ref?;
      y := bx.oops[i].addr;
      assert Ref(y) == bx.oops[i];
    }
    assert Points(bx, y);
    assert IsUsed(mem, y);
    assert y in g;
  }
}

/** The object memory: blocks laid end to end in two spaces, and the graph their words make. */
module HeapModel {

  /** A word that may refer to an object: a tagged small integer or the address of a block. */
  datatype Oop = Small(value: int) | Ref(addr: int)

  datatype Kind = PlainObject | OopArray | ByteArray

  /** A block header tells a free block, a used one, and one whose object has moved; a moved one also counts as free. */
  datatype Block =
    | Free(words: nat)
    | Forwarded(words: nat, target: int)
    | Used(hash: nat, mark: bool, pins: nat, kind: Kind, mapOop: int, oops: seq<Oop>, raw: seq<int>)

  /** Blocks by address, in words. */
  type Memory = map<int, Block>

  /** The size of struct Object: header, object size, payload size and map. */
  const HEADER: nat := 4

  function Words(b: Block): nat {
    match b
    case Free(n) => n
    case Forwarded(n, _) => n
    case Used(_, _, _, _, _, oops, raw) => HEADER + |oops| + |raw|
  }

  /** object_is_free: the hash of a forwarded object is reserved, too. */
  predicate IsFree(b: Block) {
    !b.Used?
  }

  // ---------- tiling ----------

  /** From a up to b there is block after block, each at least a header long. */
  ghost predicate Tiled(mem: Memory, a: int, b: int)
    decreases b - a
  {
    a == b || (a < b && a in mem && HEADER <= Words(mem[a]) && Tiled(mem, a + Words(mem[a]), b))
  }

  /** The space from a up to b is exactly tiled: its blocks fill it and there are no others. */
  ghost predicate Space(mem: Memory, a: int, b: int) {
    a <= b && Tiled(mem, a, b) && forall k | k in mem && a <= k < b :: Tiled(mem, a, k)
  }

  lemma {:induction false} TiledConcat(mem: Memory, a: int, b: int, c: int)
    requires Tiled(mem, a, b) && Tiled(mem, b, c)
    ensures Tiled(mem, a, c) && a <= b <= c
    decreases b - a
  {
    if a < b {
      TiledConcat(mem, a + Words(mem[a]), b, c);
      TiledOrder(mem, a + Words(mem[a]), b);
    }
    TiledOrder(mem, b, c);
  }

  lemma {:induction false} TiledRest(mem: Memory, a: int, b: int, c: int)
    requires Tiled(mem, a, b) && Tiled(mem, a, c) && b <= c
    ensures Tiled(mem, b, c) && a <= b
    decreases b - a
  {
    if a != b {
      TiledRest(mem, a + Words(mem[a]), b, c);
    }
  }

  /** Blocks do not overlap, and the walk from one block comes to the next. */
  lemma BlockEnds(mem: Memory, a: int, b: int, p: int)
    requires Space(mem, a, b) && a <= p < b && p in mem
    ensures HEADER <= Words(mem[p]) && p + Words(mem[p]) <= b
    ensures Tiled(mem, a, p + Words(mem[p])) && Tiled(mem, p + Words(mem[p]), b)
    ensures p + Words(mem[p]) < b ==> p + Words(mem[p]) in mem
    ensures forall q | q in mem && p < q < b :: p + Words(mem[p]) <= q
  {
    TiledRest(mem, a, p, b);
    var n := p + Words(mem[p]);
    assert Tiled(mem, n, n);
    TiledOrder(mem, n, b);
    TiledConcat(mem, a, p, n);
    forall q | q in mem && p < q < b
      ensures n <= q
    {
      TiledRest(mem, a, p, q);
      TiledOrder(mem, n, q);
    }
  }

  lemma {:induction false} TiledOrder(mem: Memory, a: int, b: int)
    requires Tiled(mem, a, b)
    ensures a <= b
    decreases b - a
  {
    if a != b {
      TiledOrder(mem, a + Words(mem[a]), b);
    }
  }

  /** The walk only looks at where blocks start and how long they are. */
  lemma {:induction false} TiledSame(mem: Memory, mem': Memory, a: int, b: int)
    requires Tiled(mem, a, b)
    requires forall k | k in mem && a <= k < b :: k in mem' && Words(mem'[k]) == Words(mem[k])
    ensures Tiled(mem', a, b)
    decreases b - a
  {
    if a != b {
      TiledOrder(mem, a + Words(mem[a]), b);
      TiledSame(mem, mem', a + Words(mem[a]), b);
    }
  }

  lemma SpaceSame(mem: Memory, mem': Memory, a: int, b: int)
    requires Space(mem, a, b)
    requires forall k | a <= k < b :: (k in mem <==> k in mem') && (k in mem ==> Words(mem'[k]) == Words(mem[k]))
    ensures Space(mem', a, b)
  {
    TiledSame(mem, mem', a, b);
    forall k | k in mem' && a <= k < b
      ensures Tiled(mem', a, k)
    {
      TiledSame(mem, mem', a, k);
    }
  }

  /** Retiling one stretch of a space, between two block boundaries, keeps the space tiled. */
  lemma SpaceReplace(mem: Memory, mem': Memory, a: int, p: int, q: int, b: int)
    requires Space(mem, a, b) && a <= p <= q <= b && Tiled(mem, a, p) && Tiled(mem, a, q)
    requires forall k | a <= k < p || q <= k < b ::
               (k in mem <==> k in mem') && (k in mem ==> Words(mem'[k]) == Words(mem[k]))
    requires Space(mem', p, q)
    ensures Space(mem', a, b) && Tiled(mem', a, p) && Tiled(mem', a, q)
  {
    TiledSame(mem, mem', a, p);
    TiledConcat(mem', a, p, q);
    TiledRest(mem, a, q, b);
    TiledSame(mem, mem', q, b);
    TiledConcat(mem', a, q, b);
    forall k | k in mem' && a <= k < b
      ensures Tiled(mem', a, k)
    {
      if k < p {
        TiledSame(mem, mem', a, k);
      } else if k < q {
        TiledConcat(mem', a, p, k);
      } else {
        TiledRest(mem, a, q, k);
        TiledSame(mem, mem', q, k);
        TiledConcat(mem', a, q, k);
      }
    }
  }

  /** One block is a space of its own. */
  lemma OneBlock(mem: Memory, p: int, q: int)
    requires p in mem && HEADER <= Words(mem[p]) && p + Words(mem[p]) == q
    requires forall k | k in mem && p < k < q :: false
    ensures Space(mem, p, q)
  {
    assert Tiled(mem, q, q);
    assert Tiled(mem, p, p);
  }

  /** The blocks of a space. */
  ghost function BlocksIn(mem: Memory, a: int, b: int): set<int> {
    set k | k in mem && a <= k < b
  }

  lemma BlocksMore(mem: Memory, a: int, obj: int, next: int)
    requires obj in mem && a <= obj < next && forall q | q in mem && obj < q < next :: false
    ensures BlocksIn(mem, a, next) == BlocksIn(mem, a, obj) + {obj}
  {
  }

  /** No two free blocks of the space are neighbours. */
  ghost predicate Coalesced(mem: Memory, a: int, b: int) {
    forall k | k in mem && a <= k < b && IsFree(mem[k]) && k + Words(mem[k]) != b :: IsUsed(mem, k + Words(mem[k]))
  }

  // ---------- the graph ----------

  predicate Points(b: Block, x: int) {
    b.Used? && (b.mapOop == x || Ref(x) in b.oops)
  }

  predicate IsUsed(mem: Memory, x: int) {
    x in mem && mem[x].Used?
  }

  /** Every reference in a used block is to a used block. */
  ghost predicate Sound(mem: Memory) {
    forall a, x | a in mem && Points(mem[a], x) :: IsUsed(mem, x)
  }

  /** A path along references, followed only out of the blocks in `through`. */
  ghost predicate IsPath(mem: Memory, through: set<int>, p: seq<int>) {
    |p| > 0 && forall i | 0 <= i < |p| - 1 :: p[i] in through && p[i] in mem && Points(mem[p[i]], p[i + 1])
  }

  /** x can be reached from one of the roots. */
  ghost predicate Reachable(mem: Memory, through: set<int>, roots: set<int>, x: int) {
    exists p :: IsPath(mem, through, p) && p[0] in roots && p[|p| - 1] == x
  }

  lemma RootReachable(mem: Memory, through: set<int>, roots: set<int>, x: int)
    requires x in roots
    ensures Reachable(mem, through, roots, x)
  {
    assert IsPath(mem, through, [x]);
  }

  lemma ReachableStep(mem: Memory, through: set<int>, roots: set<int>, x: int, y: int)
    requires Reachable(mem, through, roots, x) && x in through && x in mem && Points(mem[x], y)
    ensures Reachable(mem, through, roots, y)
  {
    var p :| IsPath(mem, through, p) && p[0] in roots && p[|p| - 1] == x;
    assert IsPath(mem, through, p + [y]);
  }

  /** A set that holds the roots and everything its followed members refer to holds all that is reachable. */
  lemma ClosedHoldsReachable(mem: Memory, through: set<int>, roots: set<int>, s: set<int>, x: int)
    requires roots <= s && forall a, y | a in s && a in through && a in mem && Points(mem[a], y) :: y in s
    requires Reachable(mem, through, roots, x)
    ensures x in s
  {
    var p :| IsPath(mem, through, p) && p[0] in roots && p[|p| - 1] == x;
    PathInside(mem, through, s, p, |p| - 1);
  }

  lemma {:induction false} PathInside(mem: Memory, through: set<int>, s: set<int>, p: seq<int>, i: nat)
    requires forall a, y | a in s && a in through && a in mem && Points(mem[a], y) :: y in s
    requires IsPath(mem, through, p) && p[0] in s && i < |p|
    ensures p[i] in s
  {
    if i > 0 {
      PathInside(mem, through, s, p, i - 1);
    }
  }

  // ---------- changing marks only ----------

  /** Equal but for the mark bit. */
  predicate SameButMark(b: Block, b': Block) {
    if b.Used? then b'.Used? && b' == b.(mark := b'.mark) else b' == b
  }

  ghost predicate SameButMarks(mem: Memory, mem': Memory) {
    mem'.Keys == mem.Keys && forall k | k in mem :: SameButMark(mem[k], mem'[k])
  }

  lemma SameButMarksTrans(a: Memory, b: Memory, c: Memory)
    requires SameButMarks(a, b) && SameButMarks(b, c)
    ensures SameButMarks(a, c)
  {
  }

  lemma SameGraph(mem: Memory, mem': Memory)
    requires SameButMarks(mem, mem')
    ensures Sound(mem) ==> Sound(mem')
    ensures forall k, x {:trigger Points(mem[k], x)} {:trigger Points(mem'[k], x)} :: k in mem ==> (Points(mem[k], x) <==> Points(mem'[k], x))
    ensures forall a, b | Space(mem, a, b) :: Space(mem', a, b)
  {
    forall a, b | Space(mem, a, b) ensures Space(mem', a, b) {
      SpaceSame(mem, mem', a, b);
    }
    if Sound(mem) {
      forall a, x | a in mem' && Points(mem'[a], x) ensures IsUsed(mem', x) {
        assert a in mem && Points(mem[a], x);
        assert IsUsed(mem, x);
      }
    }
  }

  lemma SameButMarkAt(mem: Memory, mem': Memory, k: int)
    requires SameButMarks(mem, mem') && k in mem
    ensures k in mem' && SameButMark(mem[k], mem'[k])
  {
  }

  lemma PointsSame(b: Block, b': Block, x: int)
    requires SameButMark(b, b')
    ensures Points(b, x) <==> Points(b', x)
  {
  }

  lemma SameReachable(mem: Memory, mem': Memory, through: set<int>, roots: set<int>, x: int)
    requires SameButMarks(mem, mem')
    ensures Reachable(mem, through, roots, x) <==> Reachable(mem', through, roots, x)
  {
    if Reachable(mem, through, roots, x) {
      var p :| IsPath(mem, through, p) && p[0] in roots && p[|p| - 1] == x;
      SamePath(mem, mem', through, p);
    }
    if Reachable(mem', through, roots, x) {
      var p :| IsPath(mem', through, p) && p[0] in roots && p[|p| - 1] == x;
      SamePath(mem, mem', through, p);
    }
  }

  lemma SamePath(mem: Memory, mem': Memory, through: set<int>, p: seq<int>)
    requires SameButMarks(mem, mem')
    ensures IsPath(mem, through, p) <==> IsPath(mem', through, p)
  {
    hide SameButMark, Points;
    forall i | 0 <= i < |p| - 1 && p[i] in mem
      ensures Points(mem[p[i]], p[i + 1]) <==> Points(mem'[p[i]], p[i + 1])
    {
      SameButMarkAt(mem, mem', p[i]);
      PointsSame(mem[p[i]], mem'[p[i]], p[i + 1]);
    }
  }
}

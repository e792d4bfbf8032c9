/** heap_clone: the original is pinned, a block allocated and filled; the heap is ready for the next operation. */
module Cloning {
  import opened HeapModel
  import opened Marking
  import opened Roots
  import opened Allocating
  import opened Forwarding
  import opened Tenuring
  import opened Collecting
  import opened YoungCollecting
  import opened Survival
  import opened YoungAllocating

  function WithPins(mem: Memory, x: int, d: int): Memory
    requires IsUsed(mem, x) && mem[x].pins + d >= 0
  {
    mem[x := mem[x].(pins := mem[x].pins + d)]
  }

  /** A copy of a block: a hash and a mark of its own, no pins. */
  function CopyOf(b: Block, hash: nat, color: bool): Block
    requires b.Used?
  {
    b.(hash := hash, mark := color, pins := 0)
  }

  /** The heap after cloning: everything live has survived, and at p, where nothing live is, there is a copy of the original. */
  ghost predicate Cloned(v: View, mem: Memory, mem': Memory, proto: int, p: int, hash: nat, color: bool, fwd: map<int, int>)
    requires HasRoots(v, mem) && IsUsed(mem, proto)
  {
    && Survived(v, mem, mem', fwd) && Represented(mem, mem', fwd, proto) && Forward(fwd, proto) == proto
    && p in mem' && mem'[p] == CopyOf(mem'[proto], hash, color)
    && forall x | Live(mem, FullRoots(v, mem), x) :: Forward(fwd, x) != p
  }

  /** The copy holds what the original held before, wherever that is now. */
  lemma ClonedSays(v: View, mem: Memory, mem': Memory, proto: int, p: int, hash: nat, color: bool, fwd: map<int, int>)
    requires HasRoots(v, mem) && IsUsed(mem, proto) && Cloned(v, mem, mem', proto, p, hash, color, fwd)
    ensures IsUsed(mem', p) && mem'[p].kind == mem[proto].kind && mem'[p].raw == mem[proto].raw && mem'[p].mapOop == Forward(fwd, mem[proto].mapOop)
    ensures |mem'[p].oops| == |mem[proto].oops| && forall k | 0 <= k < |mem[proto].oops| :: mem'[p].oops[k] == MoveOop(fwd, mem[proto].oops[k])
    ensures mem'[p].hash == hash && mem'[p].pins == 0
  {
    hide Live, FullRoots, Survived;
  }

  // ---------- pinning ----------

  lemma PinPoints(mem: Memory, x: int, d: int)
    requires IsUsed(mem, x) && mem[x].pins + d >= 0
    ensures forall k, y {:trigger Points(mem[k], y)} {:trigger Points(WithPins(mem, x, d)[k], y)} ::
              k in mem ==> (Points(mem[k], y) <==> Points(WithPins(mem, x, d)[k], y))
    ensures forall a, b :: RefersTo(WithPins(mem, x, d)[x], a, b) <==> RefersTo(mem[x], a, b)
  {
    var b, b' := mem[x], WithPins(mem, x, d)[x];
    forall y ensures Points(b, y) <==> Points(b', y) {
    }
  }

  lemma PinLayout(mem: Memory, a: int, b: int, c: int, d: int, x: int, n: int)
    requires Layout(mem, a, b, c, d) && IsUsed(mem, x) && mem[x].pins + n >= 0
    ensures Layout(WithPins(mem, x, n), a, b, c, d)
  {
    var mem' := WithPins(mem, x, n);
    PinPoints(mem, x, n);
    SpaceSame(mem, mem', a, b);
    SpaceSame(mem, mem', c, d);
    hide Tiled, Space, Points;
    forall k, y | k in mem' && Points(mem'[k], y) ensures IsUsed(mem', y) {
      assert Points(mem[k], y);
      assert IsUsed(mem, y);
    }
  }

  /** Pinning an object leaves the heap in order. */
  lemma PinInOrder(v: View, mem: Memory, remembered: set<int>, x: int)
    requires InOrder(v, mem, remembered) && IsUsed(mem, x)
    ensures InOrder(v, WithPins(mem, x, 1), remembered)
    ensures RememberedIn(v, WithPins(mem, x, 1), remembered) <==> RememberedIn(v, mem, remembered)
  {
    var mem' := WithPins(mem, x, 1);
    PinLayout(mem, v.oldStart, v.oldEnd, v.youngStart, v.youngEnd, x, 1);
    PinPoints(mem, x, 1);
    hide Layout, Points, Live, RefersTo;
    assert HasRoots(v, mem') && FullRoots(v, mem) <= FullRoots(v, mem') by {
      MorePinned(v, mem, x);
    }
    MoreReachable(mem, mem', FullRoots(v, mem), FullRoots(v, mem'), v.specialObjects);
    MoreReachable(mem, mem', FullRoots(v, mem), FullRoots(v, mem'), v.interpreter);
    forall k, a, b | IsUsed(mem', k) ensures IsUsed(mem, k) && (RefersTo(mem'[k], a, b) <==> RefersTo(mem[k], a, b)) {
    }
    assert forall k :: IsUsed(mem', k) <==> IsUsed(mem, k);
  }

  lemma MorePinned(v: View, mem: Memory, x: int)
    requires HasRoots(v, mem) && IsUsed(mem, x)
    ensures HasRoots(v, WithPins(mem, x, 1)) && FullRoots(v, mem) <= FullRoots(v, WithPins(mem, x, 1))
  {
    var mem' := WithPins(mem, x, 1);
    forall r | r in FullRoots(v, mem) ensures r in FullRoots(v, mem') {
    }
  }

  // ---------- filling and unpinning ----------

  /** The memory with the copy at p and the original unpinned. */
  function Filled(mem: Memory, p: int, proto: int, hash: nat, color: bool): Memory
    requires IsUsed(mem, proto) && mem[proto].pins > 0
  {
    WithPins(mem, proto, -1)[p := CopyOf(mem[proto], hash, color)]
  }

  /** The pinned original is where it was. */
  lemma ProtoStays(v: View, mem: Memory, kept: Memory, fwd: map<int, int>, proto: int)
    requires HasRoots(v, mem) && InBounds(v, mem) && IsUsed(mem, proto)
    requires HasRoots(v, WithPins(mem, proto, 1)) && Survived(v, WithPins(mem, proto, 1), kept, fwd)
    ensures Forward(fwd, proto) == proto && Represented(WithPins(mem, proto, 1), kept, fwd, proto) && IsUsed(kept, proto) && kept[proto].pins > 0
    ensures Live(WithPins(mem, proto, 1), FullRoots(v, WithPins(mem, proto, 1)), proto)
    ensures Words(kept[proto]) == Words(mem[proto])
  {
    hide Live;
    var memP := WithPins(mem, proto, 1);
    assert IsPinned(memP, proto);
    PinnedLive(v, memP, proto);
    assert Represented(memP, kept, fwd, proto);
  }

  /** What was live has survived cloning. */
  lemma FilledRepresents(v: View, mem: Memory, kept: Memory, fwd: map<int, int>, mem1: Memory, p: int, proto: int, hash: nat, color: bool)
    requires HasRoots(v, mem) && InBounds(v, mem) && IsUsed(mem, proto)
    requires HasRoots(v, WithPins(mem, proto, 1)) && Survived(v, WithPins(mem, proto, 1), kept, fwd)
    requires !IsUsed(kept, p) && forall k | IsUsed(kept, k) :: k in mem1 && mem1[k] == kept[k]
    ensures IsUsed(mem1, proto) && mem1[proto].pins > 0 && Cloned(v, mem, Filled(mem1, p, proto, hash, color), proto, p, hash, color, fwd)
  {
    hide Live, FullRoots, Points, SameButMark, Moved, Words;
    ProtoStays(v, mem, kept, fwd, proto);
    MorePinned(v, mem, proto);
    PinPoints(mem, proto, 1);
    var memP, memF := WithPins(mem, proto, 1), Filled(mem1, p, proto, hash, color);
    var roots, rootsP := FullRoots(v, mem), FullRoots(v, memP);
    assert Represented(mem, memF, fwd, proto) by {
      UnpinnedRepresented(mem, memP, kept, memF, fwd, proto, proto);
    }
    forall x | Live(mem, roots, x) ensures Live(memP, rootsP, x) && Represented(mem, memF, fwd, x) && Forward(fwd, x) != p {
      MoreReachable(mem, memP, roots, rootsP, x);
      assert Represented(memP, kept, fwd, x);
      UnpinnedRepresented(mem, memP, kept, memF, fwd, proto, x);
    }
    forall x | IsPinned(mem, x) ensures Forward(fwd, x) == x {
      assert IsPinned(memP, x);
    }
  }

  lemma UnpinnedRepresented(mem: Memory, memP: Memory, kept: Memory, memF: Memory, fwd: map<int, int>, proto: int, x: int)
    requires IsUsed(mem, proto) && memP == WithPins(mem, proto, 1) && Represented(memP, kept, fwd, x)
    requires IsUsed(kept, proto) && kept[proto].pins > 0 && Forward(fwd, proto) == proto && (Forward(fwd, x) == proto ==> x == proto)
    requires proto in memF && memF[proto] == WithPins(kept, proto, -1)[proto]
    requires Forward(fwd, x) != proto ==> Forward(fwd, x) in memF && memF[Forward(fwd, x)] == kept[Forward(fwd, x)]
    ensures Represented(mem, memF, fwd, x)
  {
  }

  /** The copy and the unpinned original in a heap that was in order. */
  lemma FilledLayout(kept: Memory, mem1: Memory, a: int, b: int, c: int, d: int, b': int, p: int, proto: int, hash: nat, color: bool)
    requires Layout(kept, a, b, c, d) && IsUsed(kept, proto) && kept[proto].pins > 0 && b <= b' && (b' <= c || d <= a)
    requires Space(mem1, a, b') && Space(mem1, c, d) && p in mem1 && Words(mem1[p]) == Words(kept[proto]) && !IsUsed(kept, p)
    requires forall k | k in mem1 :: a <= k < b' || c <= k < d
    requires forall k | k != p && IsUsed(mem1, k) :: IsUsed(kept, k)
    requires forall k | IsUsed(kept, k) :: k in mem1 && mem1[k] == kept[k]
    ensures Layout(Filled(mem1, p, proto, hash, color), a, b', c, d)
  {
    var memF := Filled(mem1, p, proto, hash, color);
    hide Tiled, Space, Sound;
    FilledSound(kept, mem1, p, proto, hash, color);
    FilledWords(mem1, p, proto, hash, color);
    SpaceSame(mem1, memF, a, b');
    SpaceSame(mem1, memF, c, d);
  }

  lemma FilledWords(mem1: Memory, p: int, proto: int, hash: nat, color: bool)
    requires IsUsed(mem1, proto) && mem1[proto].pins > 0 && p in mem1 && Words(mem1[p]) == Words(mem1[proto])
    ensures var memF := Filled(mem1, p, proto, hash, color);
      memF.Keys == mem1.Keys && forall k | k in mem1 :: Words(memF[k]) == Words(mem1[k])
  {
  }

  lemma FilledSound(kept: Memory, mem1: Memory, p: int, proto: int, hash: nat, color: bool)
    requires Sound(kept) && IsUsed(kept, proto) && kept[proto].pins > 0 && p in mem1
    requires forall k | k != p && IsUsed(mem1, k) :: IsUsed(kept, k)
    requires forall k | IsUsed(kept, k) :: k in mem1 && mem1[k] == kept[k]
    ensures Sound(Filled(mem1, p, proto, hash, color))
  {
    var memF := Filled(mem1, p, proto, hash, color);
    forall k, y | k in memF && Points(memF[k], y) ensures IsUsed(memF, y) {
      var k0 := if k == p then proto else k;
      assert memF[k].Used? && (k != p ==> IsUsed(mem1, k));
      assert IsUsed(kept, k0) && kept[k0].oops == memF[k].oops && kept[k0].mapOop == memF[k].mapOop;
      assert Points(kept[k0], y);
      assert IsUsed(kept, y);
    }
  }

  /** Of what is new only a copy in old space that refers to young objects is missing from the remembered set. */
  lemma FilledRemembered(v: View, v': View, kept: Memory, memF: Memory, remembered: set<int>, p: int)
    requires OnlyOldIn(v, kept, remembered) && v' == v.(oldEnd := v'.oldEnd) && v.oldEnd <= v'.oldEnd && !IsUsed(kept, p) && IsUsed(memF, p)
    requires forall k | v.oldEnd <= k < v'.oldEnd :: k == p || !IsUsed(memF, k)
    requires forall k | k != p :: IsUsed(memF, k) <==> IsUsed(kept, k)
    requires forall k, y | k != p && IsUsed(kept, k) && IsUsed(memF, k) :: Points(memF[k], y) <==> Points(kept[k], y)
    ensures OnlyOldIn(v', memF, remembered)
    ensures RememberedIn(v', memF, remembered)
       <==> RememberedIn(v, kept, remembered) && !(v'.oldStart <= p < v'.oldEnd && RefersTo(memF[p], v'.youngStart, v'.youngEnd))
  {
    hide Points;
    forall k | k != p && IsUsed(memF, k)
      ensures RefersTo(memF[k], v.youngStart, v.youngEnd) <==> RefersTo(kept[k], v.youngStart, v.youngEnd)
    {
    }
    assert p !in remembered;
  }

  /** A block has been placed in one of the spaces. */
  lemma PlacedSpaces(v: View, kept: Memory, v': View, mem1: Memory, inOld: bool, p: int, b: Block)
    requires Layout(kept, v.oldStart, v.oldEnd, v.youngStart, v.youngEnd) && v' == v.(oldEnd := v'.oldEnd)
    requires v'.oldEnd <= v.youngStart || v.youngEnd <= v.oldStart
    requires inOld ==> Placed(kept, mem1, v.oldStart, v.oldEnd, v'.oldEnd, p, b)
    requires !inOld ==> v' == v && Placed(kept, mem1, v.youngStart, v.youngEnd, v.youngEnd, p, b)
    requires HEADER <= Words(b)
    ensures Space(mem1, v'.oldStart, v'.oldEnd) && Space(mem1, v'.youngStart, v'.youngEnd) && v.oldEnd <= v'.oldEnd && InBounds(v', mem1)
    ensures p in mem1 && mem1[p] == b && !IsUsed(kept, p) && (inOld <==> v'.oldStart <= p < v'.oldEnd)
    ensures forall k | k != p && IsUsed(mem1, k) :: IsUsed(kept, k)
    ensures forall k | IsUsed(kept, k) :: k in mem1 && mem1[k] == kept[k]
    ensures forall k | v.oldEnd <= k < v'.oldEnd :: k == p || !IsUsed(mem1, k)
  {
    hide Tiled;
    if inOld {
      SpaceSame(kept, mem1, v.youngStart, v.youngEnd);
    } else {
      SpaceSame(kept, mem1, v.oldStart, v.oldEnd);
    }
  }

  /** What is known when the block for the copy has been allocated. */
  ghost predicate Prepared(v: View, mem: Memory, proto: int, v': View, mem1: Memory, remembered': set<int>, vk: View, kept: Memory, p: int, inOld: bool,
                           fwd: map<int, int>)
  {
    && HasRoots(v, mem) && RootsStay(v, mem) && InBounds(v, mem) && IsUsed(mem, proto) && HasRoots(v, WithPins(mem, proto, 1)) && v.oldEnd <= v'.oldEnd
    && Survived(v, WithPins(mem, proto, 1), kept, fwd) && v' == v.(oldEnd := v'.oldEnd) && vk == v.(oldEnd := vk.oldEnd) && vk.oldEnd <= v'.oldEnd
    && Layout(kept, vk.oldStart, vk.oldEnd, vk.youngStart, vk.youngEnd) && OnlyOldIn(vk, kept, remembered')
    && Space(mem1, v'.oldStart, v'.oldEnd) && Space(mem1, v'.youngStart, v'.youngEnd) && InBounds(v', mem1)
    && (v'.oldEnd <= v'.youngStart || v'.youngEnd <= v'.oldStart)
    && p in mem1 && Words(mem1[p]) == Words(mem[proto]) && !IsUsed(kept, p) && (inOld <==> v'.oldStart <= p < v'.oldEnd)
    && (forall k | k != p && IsUsed(mem1, k) :: IsUsed(kept, k))
    && (forall k | IsUsed(kept, k) :: k in mem1 && mem1[k] == kept[k])
    && (forall k | vk.oldEnd <= k < v'.oldEnd :: k == p || !IsUsed(mem1, k))
  }

  lemma IsPrepared(v: View, mem: Memory, remembered: set<int>, proto: int, v': View, mem1: Memory, remembered': set<int>, a: Allocation,
                   kept: Memory, fwd: map<int, int>)
    requires InOrder(v, mem, remembered) && IsUsed(mem, proto) && HEADER <= Words(mem[proto]) && HasRoots(v, WithPins(mem, proto, 1))
    requires Allocated(v, WithPins(mem, proto, 1), v', mem1, remembered', a, kept, fwd, Words(mem[proto]))
    requires (v'.oldEnd <= v'.youngStart || v'.youngEnd <= v'.oldStart) && v' == v.(oldEnd := v'.oldEnd) && v.oldEnd <= v'.oldEnd
    ensures Prepared(v, mem, proto, v', mem1, remembered', v'.(oldEnd := a.oldEnd), kept, a.address, a.inOld, fwd)
  {
    hide Survived, InOrder, Allocated, RootsStay, HasRoots, RootsIn, Layout, Placed, InBounds, OnlyOldIn, NewBlock, WithPins, Space, Words;
    var b, vk := NewBlock(a.hash, Words(mem[proto])), v'.(oldEnd := a.oldEnd);
    AllocatedIs(v, WithPins(mem, proto, 1), v', mem1, remembered', a, kept, fwd, Words(mem[proto]));
    OrderIs(v, mem, remembered);
    OrderIs(vk, kept, remembered');
    NewBlockWords(a.hash, Words(mem[proto]));
    PlacedSpaces(vk, kept, v', mem1, a.inOld, a.address, b);
  }

  /** What was live has survived, and the copy is there. */
  lemma CloneIsThere(v: View, mem: Memory, proto: int, v': View, mem1: Memory, remembered': set<int>, vk: View, kept: Memory, p: int, inOld: bool,
                     fwd: map<int, int>, hash: nat, color: bool)
    requires Prepared(v, mem, proto, v', mem1, remembered', vk, kept, p, inOld, fwd)
    ensures IsUsed(kept, proto) && kept[proto].pins > 0 && Words(kept[proto]) == Words(mem[proto])
    ensures IsUsed(mem1, proto) && mem1[proto].pins > 0 && Cloned(v, mem, Filled(mem1, p, proto, hash, color), proto, p, hash, color, fwd)
    ensures var memF := Filled(mem1, p, proto, hash, color); memF.Keys == mem1.Keys && IsUsed(memF, p)
  {
    hide Survived, Cloned, RootsStay, HasRoots, Layout, InBounds, OnlyOldIn, FullRoots, Filled, WithPins, Space;
    ProtoStays(v, mem, kept, fwd, proto);
    FilledRepresents(v, mem, kept, fwd, mem1, p, proto, hash, color);
    FilledIs(mem1, p, proto, hash, color);
  }

  /** Cloning leaves everything as it should be, except that a copy in old space may have to be remembered. */
  lemma CloneInOrder(v: View, mem: Memory, proto: int, v': View, mem1: Memory, remembered': set<int>, vk: View, kept: Memory, p: int, inOld: bool,
                     fwd: map<int, int>, hash: nat, color: bool)
    requires Prepared(v, mem, proto, v', mem1, remembered', vk, kept, p, inOld, fwd)
    ensures IsUsed(mem1, proto) && mem1[proto].pins > 0
    ensures var memF := Filled(mem1, p, proto, hash, color);
      && Layout(memF, v'.oldStart, v'.oldEnd, v'.youngStart, v'.youngEnd) && RootsStay(v', memF) && IsUsed(memF, p)
      && OnlyOldIn(v', memF, remembered')
      && (RememberedIn(v', memF, remembered') <==> RememberedIn(vk, kept, remembered') && !(inOld && RefersTo(memF[p], v'.youngStart, v'.youngEnd)))
  {
    CloneIsThere(v, mem, proto, v', mem1, remembered', vk, kept, p, inOld, fwd, hash, color);
    CloneLayout(v, mem, proto, v', mem1, remembered', vk, kept, p, inOld, fwd, hash, color);
    CloneRemembered(v, mem, proto, v', mem1, remembered', vk, kept, p, inOld, fwd, hash, color);
    PreparedIs(v, mem, proto, v', mem1, remembered', vk, kept, p, inOld, fwd);
    hide *;
    var memF := Filled(mem1, p, proto, hash, color);
    BoundsOf(v', memF);
    CloneGrounded(v, mem, v', memF, proto, p, hash, color, fwd);
  }

  lemma PreparedIs(v: View, mem: Memory, proto: int, v': View, mem1: Memory, remembered': set<int>, vk: View, kept: Memory, p: int, inOld: bool,
                   fwd: map<int, int>)
    requires Prepared(v, mem, proto, v', mem1, remembered', vk, kept, p, inOld, fwd)
    ensures RootsStay(v, mem) && InBounds(v, mem) && IsUsed(mem, proto) && v' == v.(oldEnd := v'.oldEnd) && v.oldEnd <= v'.oldEnd
    ensures p !in remembered' && (inOld <==> v'.oldStart <= p < v'.oldEnd)
  {
  }

  lemma CloneLayout(v: View, mem: Memory, proto: int, v': View, mem1: Memory, remembered': set<int>, vk: View, kept: Memory, p: int, inOld: bool,
                    fwd: map<int, int>, hash: nat, color: bool)
    requires Prepared(v, mem, proto, v', mem1, remembered', vk, kept, p, inOld, fwd)
    requires IsUsed(kept, proto) && kept[proto].pins > 0 && Words(kept[proto]) == Words(mem[proto])
    ensures IsUsed(mem1, proto) && mem1[proto].pins > 0
    ensures Layout(Filled(mem1, p, proto, hash, color), v'.oldStart, v'.oldEnd, v'.youngStart, v'.youngEnd)
  {
    hide Survived, RootsStay, HasRoots, Layout, OnlyOldIn, Filled, WithPins, Space;
    FilledLayout(kept, mem1, vk.oldStart, vk.oldEnd, vk.youngStart, vk.youngEnd, v'.oldEnd, p, proto, hash, color);
  }

  lemma CloneRemembered(v: View, mem: Memory, proto: int, v': View, mem1: Memory, remembered': set<int>, vk: View, kept: Memory, p: int, inOld: bool,
                        fwd: map<int, int>, hash: nat, color: bool)
    requires Prepared(v, mem, proto, v', mem1, remembered', vk, kept, p, inOld, fwd)
    requires IsUsed(kept, proto) && kept[proto].pins > 0
    ensures IsUsed(mem1, proto) && mem1[proto].pins > 0
    ensures var memF := Filled(mem1, p, proto, hash, color);
      && p in memF && OnlyOldIn(v', memF, remembered')
      && (RememberedIn(v', memF, remembered') <==> RememberedIn(vk, kept, remembered') && !(inOld && RefersTo(memF[p], v'.youngStart, v'.youngEnd)))
  {
    hide Survived, RootsStay, HasRoots, Layout, RememberedIn, OnlyOldIn, Filled, WithPins, Space, RefersTo, Points;
    FilledIs(mem1, p, proto, hash, color);
    FilledPoints(kept, mem1, p, proto, hash, color);
    FilledRemembered(vk, v', kept, Filled(mem1, p, proto, hash, color), remembered', p);
  }

  lemma BoundsOf(v: View, mem: Memory)
    requires Layout(mem, v.oldStart, v.oldEnd, v.youngStart, v.youngEnd)
    ensures InBounds(v, mem) && Sound(mem) && (v.oldEnd <= v.youngStart || v.youngEnd <= v.oldStart)
  {
  }

  lemma OrderIs(v: View, mem: Memory, remembered: set<int>)
    requires InOrder(v, mem, remembered)
    ensures Layout(mem, v.oldStart, v.oldEnd, v.youngStart, v.youngEnd) && RootsStay(v, mem) && OnlyOldIn(v, mem, remembered)
    ensures HasRoots(v, mem) && InBounds(v, mem)
  {
  }

  lemma AllocatedIs(v0: View, mem0: Memory, v: View, mem: Memory, remembered: set<int>, a: Allocation, kept: Memory, fwd: map<int, int>, words: nat)
    requires HasRoots(v0, mem0) && HEADER <= words && Allocated(v0, mem0, v, mem, remembered, a, kept, fwd, words)
    ensures Survived(v0, mem0, kept, fwd) && InOrder(v.(oldEnd := a.oldEnd), kept, remembered)
    ensures a.inOld ==> Placed(kept, mem, v.oldStart, a.oldEnd, v.oldEnd, a.address, NewBlock(a.hash, words))
    ensures !a.inOld ==> a.oldEnd == v.oldEnd && Placed(kept, mem, v.youngStart, v.youngEnd, v.youngEnd, a.address, NewBlock(a.hash, words))
  {
  }

  lemma FilledIs(mem1: Memory, p: int, proto: int, hash: nat, color: bool)
    requires IsUsed(mem1, proto) && mem1[proto].pins > 0 && p in mem1
    ensures var memF := Filled(mem1, p, proto, hash, color); memF.Keys == mem1.Keys && IsUsed(memF, p)
  {
  }

  lemma FilledPoints(kept: Memory, mem1: Memory, p: int, proto: int, hash: nat, color: bool)
    requires IsUsed(kept, proto) && kept[proto].pins > 0 && IsUsed(mem1, proto) && mem1[proto].pins > 0
    requires forall k | k != p && IsUsed(mem1, k) :: IsUsed(kept, k)
    requires forall k | IsUsed(kept, k) :: k in mem1 && mem1[k] == kept[k]
    ensures var memF := Filled(mem1, p, proto, hash, color);
      && (forall k | k != p :: IsUsed(memF, k) <==> IsUsed(kept, k))
      && (forall k | k != p :: IsUsed(memF, k) <==> IsUsed(mem1, k))
      && forall k, y | k != p && IsUsed(kept, k) && IsUsed(memF, k) :: Points(memF[k], y) <==> Points(kept[k], y)
  {
  }

  lemma CloneGrounded(v: View, mem: Memory, v': View, memF: Memory, proto: int, p: int, hash: nat, color: bool, fwd: map<int, int>)
    requires RootsStay(v, mem) && InBounds(v, mem) && IsUsed(mem, proto) && Cloned(v, mem, memF, proto, p, hash, color, fwd)
    requires v' == v.(oldEnd := v'.oldEnd) && v.oldEnd <= v'.oldEnd && InBounds(v', memF)
    ensures RootsStay(v', memF)
  {
    hide Live, FullRoots, RootsOf, Represents, Represented;
    RootsGround(v, mem);
    GroundedCarried(mem, AnchorOf(v), memF, fwd);
    assert Anchoring(AnchorOf(v), fwd) == AnchorOf(v');
    FullRootsAre(v', memF);
  }

  /** What Usable says besides. */
  ghost predicate Bordered(h: Heap, keys: set<int>)
    reads h, h.markStack
  {
    && (h.memoryOld <= h.nextOldFree < h.memoryOld + h.memoryOldSize ==> h.nextOldFree in keys)
    && (h.memoryYoung <= h.nextFree < h.memoryYoung + h.memoryYoungSize ==> h.nextFree in keys)
    && h.markStack.Length > 0 && h.memoryOldSize <= h.memoryOldLimit
    && (h.memoryOld + h.memoryOldLimit <= h.memoryYoung || h.memoryYoung + h.memoryYoungSize <= h.memoryOld)
  }

  lemma UsableParts(h: Heap)
    requires Usable(h)
    ensures InOrder(ViewOf(h), h.mem, h.remembered) && Bordered(h, h.mem.Keys)
  {
  }

  lemma UsableAgain(h: Heap)
    requires InOrder(ViewOf(h), h.mem, h.remembered) && Bordered(h, h.mem.Keys)
    ensures Usable(h)
  {
  }

  lemma PinIs(v: View, mem: Memory, x: int)
    requires Layout(mem, v.oldStart, v.oldEnd, v.youngStart, v.youngEnd) && HasRoots(v, mem) && IsUsed(mem, x)
    ensures var mem' := WithPins(mem, x, 1);
      mem' == mem[x := mem[x].(pins := mem[x].pins + 1)] && mem'.Keys == mem.Keys && HasRoots(v, mem') && Words(mem'[x]) == Words(mem[x])
    ensures HEADER <= Words(mem[x])
  {
  }

  lemma FilledHere(mem1: Memory, mem2: Memory, p: int, proto: int, hash: nat, color: bool)
    requires IsUsed(mem1, proto) && mem1[proto].pins > 0
    requires mem2 == mem1[proto := mem1[proto].(pins := mem1[proto].pins - 1)][p := mem1[proto].(hash := hash, mark := color, pins := 0)]
    ensures mem2 == Filled(mem1, p, proto, hash, color)
  {
  }

  /** The contents of the original go into the new block, and the original is unpinned. */
  method FillCopy(h: Heap, proto: int, p: int, hash: nat, ghost v: View, ghost mem: Memory, ghost vk: View, ghost kept: Memory, ghost inOld: bool,
                  ghost fwd: map<int, int>)
    requires Prepared(v, mem, proto, ViewOf(h), h.mem, h.remembered, vk, kept, p, inOld, fwd) && Bordered(h, h.mem.Keys)
    modifies h`mem
    ensures Cloned(v, mem, h.mem, proto, p, hash, h.markColor, fwd) && IsUsed(h.mem, p) && Usable(h)
    ensures RememberedOk(h)
       <==> RememberedIn(vk, kept, h.remembered) && !(inOld && RefersTo(h.mem[p], h.memoryYoung, h.memoryYoung + h.memoryYoungSize))
    ensures p !in h.remembered && (inOld <==> h.IsOld(p))
  {
    hide Layout, RootsIn, HasRoots, RememberedIn, OnlyOldIn, RootsStay, Survived, Cloned, InOrder, FullRoots, Filled, WithPins, RefersTo, Usable,
      CursorsOk, Prepared, Words, CopyOf, Heap.Valid;
    ghost var mem1, v' := h.mem, ViewOf(h);
    PreparedIs(v, mem, proto, v', mem1, h.remembered, vk, kept, p, inOld, fwd);
    CloneIsThere(v, mem, proto, v', mem1, h.remembered, vk, kept, p, inOld, fwd, hash, h.markColor);
    CloneInOrder(v, mem, proto, v', mem1, h.remembered, vk, kept, p, inOld, fwd, hash, h.markColor);
    var b := h.mem[proto];
    h.mem := h.mem[proto := b.(pins := b.pins - 1)];
    h.mem := h.mem[p := b.(hash := hash, mark := h.markColor, pins := 0)];
    FilledHere(mem1, h.mem, p, proto, hash, h.markColor);
    InOrderWhen(ViewOf(h), h.mem, h.remembered);
    UsableAgain(h);
  }

  /** heap_pin_object. */
  method Pin(h: Heap, proto: int)
    requires Usable(h) && IsUsed(h.mem, proto)
    modifies h`mem
    ensures Usable(h) && h.mem == WithPins(old(h.mem), proto, 1) && IsUsed(h.mem, proto) && Words(h.mem[proto]) == Words(old(h.mem)[proto])
    ensures HEADER <= Words(h.mem[proto]) && InOrder(old(ViewOf(h)), old(h.mem), h.remembered) && HasRoots(ViewOf(h), old(h.mem))
    ensures HasRoots(ViewOf(h), h.mem) && (RememberedOk(h) <==> old(RememberedOk(h)))
  {
    hide Layout, RootsIn, HasRoots, RememberedIn, RootsStay, InOrder, WithPins, Usable, CursorsOk, Words, Heap.Valid;
    ghost var v, mem, remembered := ViewOf(h), h.mem, h.remembered;
    UsableParts(h);
    OrderIs(v, mem, remembered);
    PinIs(v, mem, proto);
    PinInOrder(v, mem, remembered, proto);
    h.mem := h.mem[proto := h.mem[proto].(pins := h.mem[proto].pins + 1)];
    UsableAgain(h);
  }

  /** The original is pinned, so that collections leave it where it is, and a block of its size is allocated. */
  method AllocatePinned(h: Heap, proto: int) returns (p: int, ghost inOld: bool, ghost vk: View, ghost kept: Memory, ghost fwd: map<int, int>)
    requires Ready(h) && IsUsed(h.mem, proto)
    requires h.memoryOldSize + 2 * h.memoryYoungSize + Words(h.mem[proto]) < h.memoryOldLimit
    modifies h`mem, h`markColor, h`markStack, h`markStackPosition, h`pushed, h`before, h.markStack
    modifies h`memoryOldSize, h`nextOldFree, h`nextFree, h`remembered, h`doFullGCNext
    ensures Prepared(old(ViewOf(h)), old(h.mem), proto, ViewOf(h), h.mem, h.remembered, vk, kept, p, inOld, fwd) && Bordered(h, h.mem.Keys)
    ensures RememberedIn(vk, kept, h.remembered) && (h.markStack == old(h.markStack) || fresh(h.markStack))
    ensures old(h.memoryOldSize) <= h.memoryOldSize
    ensures !inOld ==> h.memoryOldSize <= old(h.memoryOldSize) + 2 * h.memoryYoungSize
  {
    hide Layout, RootsIn, HasRoots, RememberedIn, RootsStay, Survived, Allocated, InOrder, FullRoots, WithPins, Usable, CursorsOk, Bordered, Prepared,
      Words, Heap.Valid;
    ghost var v, mem, remembered := ViewOf(h), h.mem, h.remembered;
    Pin(h, proto);
    ApartAs(h);
    ghost var a;
    p, a, kept, fwd := Allocate(h, Words(h.mem[proto]));
    inOld := a.inOld;
    BorderedWhen(h);
    vk := ViewOf(h).(oldEnd := a.oldEnd);
    IsPrepared(v, mem, remembered, proto, ViewOf(h), h.mem, h.remembered, a, kept, fwd);
  }

  /** heap_clone. In old space, where it is put only when no young block could be split, the copy is not remembered. */
  method Clone(h: Heap, proto: int, hash: nat) returns (p: int, ghost inOld: bool, ghost fwd: map<int, int>)
    requires Ready(h) && IsUsed(h.mem, proto)
    requires h.memoryOldSize + 2 * h.memoryYoungSize + Words(h.mem[proto]) < h.memoryOldLimit
    modifies h`mem, h`markColor, h`markStack, h`markStackPosition, h`pushed, h`before, h.markStack
    modifies h`memoryOldSize, h`nextOldFree, h`nextFree, h`remembered, h`doFullGCNext
    ensures Cloned(old(ViewOf(h)), old(h.mem), h.mem, proto, p, hash, h.markColor, fwd) && IsUsed(h.mem, p) && Usable(h)
    ensures h.mem[p].kind == old(h.mem[proto].kind) && h.mem[p].raw == old(h.mem[proto].raw)
    ensures h.mem[p].mapOop == Forward(fwd, old(h.mem[proto].mapOop)) && |h.mem[p].oops| == old(|h.mem[proto].oops|)
    ensures forall k | 0 <= k < |h.mem[p].oops| :: h.mem[p].oops[k] == MoveOop(fwd, old(h.mem[proto].oops)[k])
    ensures h.mem[p].hash == hash && h.mem[p].pins == 0
    ensures h.markStack == old(h.markStack) || fresh(h.markStack)
    ensures RememberedOk(h) <==> !(inOld && RefersTo(h.mem[p], h.memoryYoung, h.memoryYoung + h.memoryYoungSize))
    ensures RememberedOk(h) <==> Ready(h)
    ensures p !in h.remembered
    ensures old(h.memoryOldSize) <= h.memoryOldSize && (inOld <==> h.IsOld(p))
    ensures !inOld ==> h.memoryOldSize <= old(h.memoryOldSize) + 2 * h.memoryYoungSize
  {
    hide Layout, RootsIn, HasRoots, RememberedIn, RootsStay, Survived, Allocated, Cloned, InOrder, FullRoots, Filled, WithPins, RefersTo, Usable,
      CursorsOk, Bordered, Prepared, Words, CopyOf, Heap.Valid;
    ghost var v, mem := ViewOf(h), h.mem;
    ghost var vk, kept;
    ReadyIs(h);
    p, inOld, vk, kept, fwd := AllocatePinned(h, proto);
    FillCopy(h, proto, p, hash, v, mem, vk, kept, inOld, fwd);
    ClonedSays(v, mem, h.mem, proto, p, hash, h.markColor, fwd);
  }

  /** The same if the first try succeeds, whatever the remembered set misses. */
  method CloneAtOnce(h: Heap, proto: int, hash: nat) returns (ok: bool, p: int)
    requires Usable(h) && IsUsed(h.mem, proto)
    modifies h`mem, h`nextFree
    ensures Usable(h) && (RememberedOk(h) <==> old(RememberedOk(h)))
    ensures ok ==> Cloned(old(ViewOf(h)), old(h.mem), h.mem, proto, p, hash, h.markColor, map[]) && IsUsed(h.mem, p) && !h.IsOld(p)
    ensures ok ==> h.mem[p] == old(h.mem[proto]).(hash := hash, mark := h.markColor, pins := 0)
    ensures !ok ==> h.mem == old(h.mem)
    ensures !ok ==> NoYoungRoom(old(h.mem), old(h.nextFree), h.memoryYoung, h.memoryYoung + h.memoryYoungSize, old(Words(h.mem[proto]))) && !h.IsYoung(h.nextFree)
  {
    hide Layout, RootsIn, HasRoots, RememberedIn, RootsStay, Survived, Allocated, Cloned, InOrder, FullRoots, WithPins, RefersTo, Usable,
      CursorsOk, Bordered, Prepared, Words, CopyOf, Heap.Valid, NoYoungRoom;
    ghost var v, mem, remembered, nextFree := ViewOf(h), h.mem, h.remembered, h.nextFree;
    UsableParts(h);
    OrderIs(v, mem, remembered);
    Pin(h, proto);
    ApartAs(h);
    ghost var kept := h.mem;
    ghost var a;
    ok, p, a := AllocateAtOnce(h, Words(h.mem[proto]));
    if ok {
      BorderedWhen(h);
      AllocatedIs(v, kept, ViewOf(h), h.mem, h.remembered, a, kept, map[], Words(mem[proto]));
      IsPrepared(v, mem, remembered, proto, ViewOf(h), h.mem, h.remembered, a, kept, map[]);
      FillCopy(h, proto, p, hash, v, mem, v, kept, false, map[]);
      ClonedHere(v, mem, h.mem, proto, p, hash, h.markColor);
    } else {
      UsableParts(h);
      Unpinned(mem, proto);
      PinRoom(mem, proto, nextFree, h.memoryYoung, h.memoryYoung + h.memoryYoungSize, Words(mem[proto]));
      h.mem := h.mem[proto := h.mem[proto].(pins := h.mem[proto].pins - 1)];
      UsableAgain(h);
    }
  }

  lemma ClonedHere(v: View, mem: Memory, mem': Memory, proto: int, p: int, hash: nat, color: bool)
    requires HasRoots(v, mem) && IsUsed(mem, proto) && Cloned(v, mem, mem', proto, p, hash, color, map[])
    ensures IsUsed(mem', p) && mem'[p] == mem[proto].(hash := hash, mark := color, pins := 0)
  {
    hide Live, FullRoots, Survived;
    MovedNowhere(mem[proto]);
  }

  lemma PinRoom(mem: Memory, x: int, cursor: int, a: int, end: int, words: int)
    requires IsUsed(mem, x) && NoYoungRoom(WithPins(mem, x, 1), cursor, a, end, words)
    ensures NoYoungRoom(mem, cursor, a, end, words)
  {
    var n: nat := words + HEADER;
    forall k | Fits(mem, k, n) ensures Fits(WithPins(mem, x, 1), k, n) {
    }
  }

  lemma Unpinned(mem: Memory, x: int)
    requires IsUsed(mem, x)
    ensures var b := WithPins(mem, x, 1)[x]; b.Used? && b.pins > 0 && WithPins(mem, x, 1)[x := b.(pins := b.pins - 1)] == mem
  {
  }

  lemma ReadyIs(h: Heap)
    requires Ready(h)
    ensures HasRoots(ViewOf(h), h.mem)
  {
  }

  lemma BorderedWhen(h: Heap)
    requires CursorsOk(h) && h.markStack.Length > 0 && h.memoryOldSize <= h.memoryOldLimit
    requires h.memoryOld + h.memoryOldLimit <= h.memoryYoung || h.memoryYoung + h.memoryYoungSize <= h.memoryOld
    ensures Bordered(h, h.mem.Keys)
    ensures var v := ViewOf(h); v.oldEnd <= v.youngStart || v.youngEnd <= v.oldStart
  {
  }

  lemma ApartAs(h: Heap)
    requires Usable(h)
    ensures h.memoryOld + h.memoryOldLimit <= h.memoryYoung || h.memoryYoung + h.memoryYoungSize <= h.memoryOld
    ensures h.memoryOldSize <= h.memoryOldLimit && h.markStack.Length > 0
  {
  }

  lemma InOrderWhen(v: View, mem: Memory, remembered: set<int>)
    requires Layout(mem, v.oldStart, v.oldEnd, v.youngStart, v.youngEnd) && RootsStay(v, mem) && OnlyOldIn(v, mem, remembered)
    ensures InOrder(v, mem, remembered)
  {
  }
}

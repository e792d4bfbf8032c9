/** Turning the returns of an inlined callee into moves and jumps out of the inlined code. */
module Returns {
  import opened Wrappers
  import opened Opcodes
  import opened CodeVectors
  import opened Execution
  import opened EditedCode

  predicate IsReturn(op: Word) {
    op == OP_RETURN_REGISTER || op == OP_RETURN_VALUE
  }

  /** How many returns start in the stretch from a up to b. */
  function CountReturns(c: seq<Word>, a: int, b: int): nat
    decreases b - a
  {
    if a >= b || !Fits(c, a) then 0
    else (if IsReturn(c[a]) then 1 else 0) + CountReturns(c, a + Length(c, a), b)
  }

  /** Each return grows by three words, so this is where the instruction at p ends up. */
  function Pos(c: seq<Word>, p: int): int {
    p + 3 * CountReturns(c, 0, p)
  }

  /** Where the instruction at p is while only the returns before done have been replaced. */
  function PosSoFar(c: seq<Word>, done: int, p: int): int {
    if p <= done then Pos(c, p) else p + 3 * CountReturns(c, 0, done)
  }

  ghost predicate ReturnAt(c: seq<Word>, p: int) {
    Boundary(c, p) && Fits(c, p) && IsReturn(c[p])
  }

  /** A forward jump to the instruction just behind a return. */
  ghost predicate JumpsPastReturn(c: seq<Word>, p: int, t: int) {
    p < t - 2 && ReturnAt(c, t - 2)
  }

  /** A backward jump to a return. */
  ghost predicate JumpsBackToReturn(c: seq<Word>, p: int, t: int) {
    t < p && ReturnAt(c, t)
  }

  /** The words that replace a return. */
  function ExitWords(ret: Word, operand: Word, resultReg: int, jump: int): seq<Word> {
    if ret == OP_RETURN_REGISTER
    then [OP_MOVE_REGISTER, SmallintToObject(resultReg), operand, OP_JUMP_TO, SmallintToObject(jump)]
    else [OP_LOAD_LITERAL, SmallintToObject(resultReg), operand, OP_JUMP_TO, SmallintToObject(jump)]
  }

  /** At q: the result goes into the result register, then out to a place `out` words behind the end. */
  ghost predicate ExitAt(c: seq<Word>, q: int, ret: Word, operand: Word, resultReg: int, out: int) {
    && 0 <= q && q + 5 <= |c| && Boundary(c, q) && Boundary(c, q + 3) && Fits(c, q) && Fits(c, q + 3)
    && Fetch(c, q) == Instr(if ret == OP_RETURN_REGISTER then OP_MOVE_REGISTER else OP_LOAD_LITERAL,
                            [SmallintToObject(resultReg), operand], 0)
    && Length(c, q) == 3 && Length(c, q + 3) == 2
    && Fetch(c, q + 3) == Instr(OP_JUMP_TO, [0], |c| + out)
  }

  /** What has become of the target of the jump at p: right, except in the two cases the pass gets wrong. */
  ghost predicate AimedSoFar(c0: seq<Word>, done: int, p: int, t: int, u: int) {
    if t - 2 < done && JumpsPastReturn(c0, p, t) then u == Pos(c0, t - 2)
    else if t < done && JumpsBackToReturn(c0, p, t) then u >= Pos(c0, t) + 5
    else u == PosSoFar(c0, done, t)
  }

  /** The code with the returns before done replaced. */
  ghost predicate ReplacedSoFar(c0: seq<Word>, done: int, c: seq<Word>, resultReg: int, out: int) {
    && Boundary(c0, done) && |c| == |c0| + 3 * CountReturns(c0, 0, done) && Sound(c)
    && forall p | Boundary(c0, p) && p < |c0| :: ReplacedAt(c0, done, c, resultReg, out, p)
  }

  ghost predicate ReplacedAt(c0: seq<Word>, done: int, c: seq<Word>, resultReg: int, out: int, p: int) {
    && Fits(c0, p) && Boundary(c, PosSoFar(c0, done, p))
    && if p < done && IsReturn(c0[p]) then ExitAt(c, Pos(c0, p), c0[p], c0[p + 1], resultReg, out)
       else Fits(c, PosSoFar(c0, done, p))
            && Carried(c0, p, c, PosSoFar(c0, done, p), Fetch(c, PosSoFar(c0, done, p)).target)
            && (CanJump(c0[p]) ==> AimedSoFar(c0, done, p, Target(c0, p), Fetch(c, PosSoFar(c0, done, p)).target))
  }

  // ---------- counting ----------

  lemma {:induction false} CountSplit(c: seq<Word>, a: int, b: int, d: int)
    requires Tiled(c, a, b) && Tiled(c, b, d)
    ensures CountReturns(c, a, d) == CountReturns(c, a, b) + CountReturns(c, b, d)
    decreases b - a
  {
    hide BaseLength, ArgLength, KnownOp;
    if a < b {
      CountSplit(c, a + Length(c, a), b, d);
    }
  }

  lemma PosNext(c: seq<Word>, p: int)
    requires Boundary(c, p) && Fits(c, p)
    ensures Boundary(c, p + Length(c, p)) && Length(c, p) >= 1
    ensures CountReturns(c, 0, p + Length(c, p)) == CountReturns(c, 0, p) + if IsReturn(c[p]) then 1 else 0
    ensures Pos(c, p + Length(c, p)) == Pos(c, p) + Length(c, p) + if IsReturn(c[p]) then 3 else 0
  {
    hide BaseLength, ArgLength, KnownOp;
    var n := Length(c, p);
    InstructionEnds0(c, p);
    assert Tiled(c, p + n, p + n);
    CountSplit(c, 0, p, p + n);
    assert CountReturns(c, p + n, p + n) == 0;
  }

  lemma PosMonotone(c: seq<Word>, x: int, y: int)
    requires Boundary(c, x) && Boundary(c, y) && x <= y
    ensures CountReturns(c, 0, x) <= CountReturns(c, 0, y) && Pos(c, x) <= Pos(c, y)
    ensures x < y && Fits(c, x) && IsReturn(c[x]) ==> Pos(c, x) + 5 <= Pos(c, y) && x + 2 <= y
    ensures x < y && Fits(c, x) ==> Pos(c, x) + Length(c, x) <= Pos(c, y)
  {
    TiledRest(c, 0, x, y);
    CountSplit(c, 0, x, y);
    if x < y {
      InstructionEnds(c, x, y);
      PosNext(c, x);
      var z := x + Length(c, x);
      TiledRest(c, 0, z, y);
      CountSplit(c, 0, z, y);
    }
  }

  // ---------- the loop ----------

  lemma StartReplacing(c0: seq<Word>, resultReg: int, out: int)
    requires Sound(c0)
    ensures ReplacedSoFar(c0, 0, c0, resultReg, out) && Pos(c0, 0) == 0
  {
    hide BaseLength, ArgLength, KnownOp, Length;
    assert CountReturns(c0, 0, 0) == 0;
    forall p | Boundary(c0, p) && p < |c0|
      ensures ReplacedAt(c0, 0, c0, resultReg, out, p)
    {
      assert SoundAt(c0, p);
      assert PosSoFar(c0, 0, p) == p;
      FetchShows(c0, p);
      if CanJump(c0[p]) {
        assert PosSoFar(c0, 0, Target(c0, p)) == Target(c0, p);
      }
    }
  }

  /** What the loop finds when it has come to the instruction at p of the original. */
  lemma NextReplacement(c0: seq<Word>, p: int, c: seq<Word>, resultReg: int, out: int)
    requires ReplacedSoFar(c0, p, c, resultReg, out) && p < |c0| && Sound(c0)
    ensures var i := Pos(c0, p);
      && Boundary(c0, p) && Fits(c0, p) && 0 <= i < |c| && Boundary(c, i) && Boundary(c, |c|) && GoodJumps(c) && Sound(c) && Fits(c, i)
      && c[i] == c0[p] && Length(c, i) == Length(c0, p) >= 1
      && (IsReturn(c[i]) ==> Length(c, i) == 2 && i + 2 <= |c| && c[i + 1] == c0[p + 1] && p + 2 <= |c0|)
  {
    SoundIsGood(c);
    assert ReplacedAt(c0, p, c, resultReg, out, p);
    var i := Pos(c0, p);
    assert PosSoFar(c0, p, p) == i;
    FetchShows(c0, p);
    FetchShows(c, i);
    if IsReturn(c[i]) {
      assert Fetch(c, i).args[0] == Fetch(c0, p).args[0];
    }
  }

  lemma AfterDelete(c: seq<Word>, i: int, c1: seq<Word>)
    requires 0 <= i && i + 2 <= |c| && Sound(c) && Boundary(c, i) && Fits(c, i) && Length(c, i) == 2
    requires Edited(c, Deleting(i, 2), c1)
    ensures Cut(c, i, 2, c1) && Sound(c1) && GoodJumps(c1) && Boundary(c1, i) && Boundary(c1, |c1|) && |c1| == |c| - 2
  {
    hide BaseLength, ArgLength, KnownOp, Length;
    InstructionEnds0(c, i);
    assert Boundary(c, |c|);
    CutSound(c, i, 2, c1);
    SoundIsGood(c1);
    CutBoundary(c, i, 2, c1, i);
  }

  /** Where replacing the two words at i by five sends the target u of a jump at q. */
  function Replacement(i: int, q: int, u: int): int {
    if q < i then (if u > i + 2 then u + 3 else if u == i + 2 then i else u)
    else if u > i then u + 3 else if u == i then i + 5 else u
  }

  lemma ExitCode(ret: Word, operand: Word, resultReg: int, jump: int)
    requires IsReturn(ret)
    ensures var w := ExitWords(ret, operand, resultReg, jump);
      && |w| == 5 && Boundary(w, 0) && Boundary(w, 3) && Boundary(w, 5) && Fits(w, 0) && Fits(w, 3) && Length(w, 0) == 3 && Length(w, 3) == 2
      && Fetch(w, 0) == Instr(if ret == OP_RETURN_REGISTER then OP_MOVE_REGISTER else OP_LOAD_LITERAL,
                              [SmallintToObject(resultReg), operand], 0)
      && Fetch(w, 3) == Instr(OP_JUMP_TO, [0], 4 + jump) && Target(w, 3) == 4 + jump && w[3] == OP_JUMP_TO && IsSmallint(w[4]) && !CanJump(w[0])
      && (forall k | Boundary(w, k) && k < 5 :: k == 0 || k == 3)
  {
    var w := ExitWords(ret, operand, resultReg, jump);
    assert Tiled(w, 5, 5);
    assert Tiled(w, 3, 5);
    assert Tiled(w, 3, 3);
    forall k | Boundary(w, k) && k < 5
      ensures k == 0 || k == 3
    {
      if 0 < k {
        InstructionEnds(w, 0, k);
        if 3 < k {
          InstructionEnds(w, 3, k);
        }
      }
    }
  }

  /** Deleting the two words at i and inserting five there carries every other instruction. */
  lemma ReplacedInstruction(c: seq<Word>, i: int, c1: seq<Word>, w: seq<Word>, c2: seq<Word>, q: int)
    requires 0 <= i && Cut(c, i, 2, c1) && Sound(c) && Sound(c1) && |w| == 5 && Boundary(w, 5) && Spliced(c1, i, w, c2)
    requires Boundary(c1, i) && Boundary(c, q) && q < |c| && q != i
    ensures Fits(c, q) && (q < i ==> q + Length(c, q) <= i) && (i < q ==> i + 2 <= q)
    ensures var q2 := if q < i then q else q + 3;
      Boundary(c2, q2) && Carried(c, q, c2, q2, Replacement(i, q, Fetch(c, q).target))
  {
    hide BaseLength, ArgLength, KnownOp, Length, Fetch;
    assert SoundAt(c, q);
    if q < i {
      InstructionEnds(c, q, i);
    } else {
      InstructionEnds(c, i, q);
    }
    FetchShows(c, q);
    CutBoundary(c, i, 2, c1, q);
    var q1 := if q < i then q else q - 2;
    assert Survives(c, Deleting(i, 2), q);
    var u := Fetch(c, q).target;
    var u1 := Deleting(i, 2).MovedTarget(q, u);
    assert Carried(c, q, c1, q1, u1);
    assert Survives(c1, Inserting(i, 5), q1);
    FetchShows(c1, q1);
    InsertBoundary(c1, i, w, c2, q1);
    var q2 := if q < i then q else q + 3;
    CarriedTrans(c, q, c1, q1, u1, c2, q2, Inserting(i, 5).MovedTarget(q1, Fetch(c1, q1).target));
    if CanJump(c[q]) {
      if i < u <= |c| {
        InstructionEnds(c, i, u);
      }
      JumpCarried(c, q, c2, q2, Inserting(i, 5).MovedTarget(q1, u1), Replacement(i, q, u));
    } else {
      StillCarried(c, q, c2, q2, Inserting(i, 5).MovedTarget(q1, Fetch(c1, q1).target), Replacement(i, q, u));
    }
  }

  lemma JumpCarried(c: seq<Word>, q: int, c2: seq<Word>, q2: int, t: int, u: int)
    requires Fits(c, q) && Carried(c, q, c2, q2, t) && t == u
    ensures Carried(c, q, c2, q2, u)
  {
  }

  lemma StillCarried(c: seq<Word>, q: int, c2: seq<Word>, q2: int, t: int, u: int)
    requires Fits(c, q) && Carried(c, q, c2, q2, t) && !CanJump(c[q])
    ensures Carried(c, q, c2, q2, u)
  {
  }

  lemma ReplacementSound(c: seq<Word>, i: int, c1: seq<Word>, w: seq<Word>, c2: seq<Word>, ret: Word, operand: Word, resultReg: int, out: nat)
    requires 0 <= i && Cut(c, i, 2, c1) && Sound(c1) && Boundary(c1, i) && |c1| == |c| - 2
    requires IsReturn(ret) && w == ExitWords(ret, operand, resultReg, |c| - i - 2 + out + 1) && Spliced(c1, i, w, c2) && 0 < out
    ensures Sound(c2) && |c2| == |c| + 3 && ExitAt(c2, i, ret, operand, resultReg, out) && Boundary(c2, i + 5)
  {
    hide BaseLength, ArgLength, KnownOp, Length, Fetch, ExitWords, Tiled;
    var jump := |c| - i - 2 + out + 1;
    ExitCode(ret, operand, resultReg, jump);
    InsertBoundary(c1, i, w, c2, 0);
    InsertBoundary(c1, i, w, c2, 3);
    InsertBoundary(c1, i, w, c2, 5);
    InsertedInstruction(c1, i, w, c2, 0);
    InsertedInstruction(c1, i, w, c2, 3);
    assert |c2| == |c1| + 5;
    forall k | Boundary(w, k) && k < |w|
      ensures Fits(w, k) && (CanJump(w[k]) ==>
                && IsSmallint(w[k + JumpParameter(w[k])]) && 0 <= Target(w, k) + i
                && (Target(w, k) + i <= |c2| ==> Boundary(c2, Target(w, k) + i)))
    {
      FetchShows(w, k);
    }
    SpliceSound(c1, i, w, c2);
  }

  /** The step of the loop at a return. */
  lemma Replace(c0: seq<Word>, p: int, c: seq<Word>, c1: seq<Word>, c2: seq<Word>, resultReg: int, out: nat)
    requires ReplacedSoFar(c0, p, c, resultReg, out) && p < |c0| && Sound(c0) && Closed(c0) && 0 < out
    requires Fits(c0, p) && IsReturn(c0[p]) && p + 2 <= |c0| && Length(c0, p) == 2
    requires 0 <= Pos(c0, p) < |c| && Fits(c, Pos(c0, p)) && Length(c, Pos(c0, p)) == 2
    requires Cut(c, Pos(c0, p), 2, c1) && Sound(c1) && Boundary(c1, Pos(c0, p)) && |c1| == |c| - 2
    requires Spliced(c1, Pos(c0, p), ExitWords(c0[p], c0[p + 1], resultReg, |c| - Pos(c0, p) - 2 + out + 1), c2)
    ensures ReplacedSoFar(c0, p + 2, c2, resultReg, out) && Pos(c0, p + 2) == Pos(c0, p) + 5
    ensures ExitAt(c2, Pos(c0, p), c0[p], c0[p + 1], resultReg, out)
  {
    hide BaseLength, ArgLength, KnownOp, Length, Fetch, Pos, PosSoFar, CountReturns;
    var i := Pos(c0, p);
    var w := ExitWords(c0[p], c0[p + 1], resultReg, |c| - i - 2 + out + 1);
    ExitCode(c0[p], c0[p + 1], resultReg, |c| - i - 2 + out + 1);
    ReplacementSound(c, i, c1, w, c2, c0[p], c0[p + 1], resultReg, out);
    PosNext(c0, p);
    forall x | Boundary(c0, x) && x < |c0|
      ensures ReplacedAt(c0, p + 2, c2, resultReg, out, x)
    {
      assert ReplacedAt(c0, p, c, resultReg, out, x);
      Positions(c0, p, x);
      if x < p && IsReturn(c0[x]) {
        ExitCarried(c, i, c1, w, c2, Pos(c0, x), c0[x], c0[x + 1], resultReg, out);
      } else if x != p {
        ReplaceOther(c0, p, c, c1, w, c2, resultReg, out, x);
      }
    }
  }

  /** The arithmetic of positions around the return at p. */
  lemma Positions(c0: seq<Word>, p: int, x: int)
    requires Boundary(c0, p) && Boundary(c0, x) && Fits(c0, p) && IsReturn(c0[p])
    ensures PosSoFar(c0, p, p) == Pos(c0, p) == PosSoFar(c0, p + 2, p)
    ensures x < p ==> PosSoFar(c0, p, x) == Pos(c0, x) == PosSoFar(c0, p + 2, x) < Pos(c0, p)
    ensures x < p && Fits(c0, x) ==> Pos(c0, x) + Length(c0, x) <= Pos(c0, p)
    ensures x < p && Fits(c0, x) && IsReturn(c0[x]) ==> Pos(c0, x) + 5 <= Pos(c0, p)
    ensures p < x ==> p + 2 <= x && PosSoFar(c0, p + 2, x) == PosSoFar(c0, p, x) + 3
    ensures p < x ==> PosSoFar(c0, p, x) == Pos(c0, p) + x - p
  {
    hide BaseLength, ArgLength, KnownOp;
    PosNext(c0, p);
    ReturnLength(c0, p);
    if x < p {
      InstructionEnds(c0, x, p);
      InstructionShape(c0, x);
      PosMonotone(c0, x, p);
    } else if p < x {
      InstructionEnds(c0, p, x);
    }
  }

  lemma ReturnLength(c: seq<Word>, p: int)
    requires Fits(c, p) && IsReturn(c[p])
    ensures Length(c, p) == 2 && !CanJump(c[p])
  {
  }

  lemma ExitCarried(c: seq<Word>, i: int, c1: seq<Word>, w: seq<Word>, c2: seq<Word>, q: int,
                    ret: Word, operand: Word, resultReg: int, out: nat)
    requires 0 <= i < |c| && Cut(c, i, 2, c1) && Sound(c) && Sound(c1) && |w| == 5 && Boundary(w, 5) && Spliced(c1, i, w, c2)
    requires Boundary(c1, i) && ExitAt(c, q, ret, operand, resultReg, out) && q + 5 <= i && |c2| == |c| + 3 && 0 < out
    ensures ExitAt(c2, q, ret, operand, resultReg, out)
  {
    hide BaseLength, ArgLength, KnownOp, Length;
    ReplacedInstruction(c, i, c1, w, c2, q);
    ReplacedInstruction(c, i, c1, w, c2, q + 3);
    FetchShows(c, q);
    FetchShows(c, q + 3);
    FetchShows(c2, q);
    FetchShows(c2, q + 3);
  }

  lemma ReplaceOther(c0: seq<Word>, p: int, c: seq<Word>, c1: seq<Word>, w: seq<Word>, c2: seq<Word>, resultReg: int, out: nat, x: int)
    requires ReplacedSoFar(c0, p, c, resultReg, out) && p < |c0| && Sound(c0) && Closed(c0)
    requires Fits(c0, p) && IsReturn(c0[p]) && 0 <= Pos(c0, p) < |c|
    requires Cut(c, Pos(c0, p), 2, c1) && Sound(c1) && |w| == 5 && Boundary(w, 5) && Spliced(c1, Pos(c0, p), w, c2) && Boundary(c1, Pos(c0, p))
    requires Boundary(c0, x) && x < |c0| && x != p && Fits(c0, x) && !(x < p && IsReturn(c0[x]))
    ensures ReplacedAt(c0, p + 2, c2, resultReg, out, x)
  {
    hide BaseLength, ArgLength, KnownOp, Length, Fetch, Pos, PosSoFar, CountReturns, Sound, Closed;
    assert ReplacedAt(c0, p, c, resultReg, out, x);
    Positions(c0, p, x);
    var i, q := Pos(c0, p), PosSoFar(c0, p, x);
    ReplacedStays(c0, p, c, resultReg, out);
    FetchShows(c, q);
    FetchShows(c0, x);
    assert q < |c|;
    ReplacedInstruction(c, i, c1, w, c2, q);
    var u := Fetch(c, q).target;
    var q2 := if q < i then q else q + 3;
    assert q2 == PosSoFar(c0, p + 2, x);
    FetchShows(c2, q2);
    CarriedTrans(c0, x, c, q, u, c2, q2, Replacement(i, q, u));
    if CanJump(c0[x]) {
      var t := Target(c0, x);
      TargetIsBoundary(c0, x);
      Positions(c0, p, t);
      AimReplaced(c0, p, x, t, u, q);
    } else {
      StillCarried(c0, x, c2, q2, Replacement(i, q, u), Fetch(c2, q2).target);
    }
  }

  lemma ReplacedStays(c0: seq<Word>, p: int, c: seq<Word>, resultReg: int, out: int)
    requires ReplacedSoFar(c0, p, c, resultReg, out)
    ensures Sound(c) && Boundary(c0, p)
  {
  }

  lemma TargetIsBoundary(c: seq<Word>, p: int)
    requires Sound(c) && Closed(c) && Boundary(c, p) && p < |c| && Fits(c, p) && CanJump(c[p])
    ensures 0 <= Target(c, p) < |c| && Boundary(c, Target(c, p))
  {
    assert SoundAt(c, p) && ClosedAt(c, p);
  }

  /** The aim of a jump stays as described when the return at p is replaced. */
  lemma AimReplaced(c0: seq<Word>, p: int, x: int, t: int, u: int, q: int)
    requires Boundary(c0, p) && Boundary(c0, x) && Boundary(c0, t) && p < |c0| && Fits(c0, p) && IsReturn(c0[p]) && x != p
    requires q == PosSoFar(c0, p, x) && Fits(c0, x) && AimedSoFar(c0, p, x, t, u)
    ensures AimedSoFar(c0, p + 2, x, t, Replacement(Pos(c0, p), q, u))
  {
    hide BaseLength, ArgLength, KnownOp, Length, Pos, PosSoFar, CountReturns;
    Positions(c0, p, x);
    Positions(c0, p, t);
    InstructionShape(c0, x);
    if JumpsPastReturn(c0, x, t) {
      ReturnLength2(c0, t - 2);
      Positions(c0, p, t - 2);
    }
    if JumpsBackToReturn(c0, x, t) {
      ReturnLength2(c0, t);
    }
  }

  lemma InstructionShape(c: seq<Word>, p: int)
    requires Fits(c, p)
    ensures Length(c, p) >= 1
  {
  }

  lemma ReturnLength2(c: seq<Word>, p: int)
    requires ReturnAt(c, p)
    ensures Length(c, p) == 2
  {
  }

  /** The step of the loop at any other instruction. */
  lemma Pass(c0: seq<Word>, p: int, c: seq<Word>, resultReg: int, out: int)
    requires ReplacedSoFar(c0, p, c, resultReg, out) && p < |c0| && Fits(c0, p) && !IsReturn(c0[p]) && Sound(c0) && Closed(c0)
    ensures ReplacedSoFar(c0, p + Length(c0, p), c, resultReg, out)
    ensures Pos(c0, p + Length(c0, p)) == Pos(c0, p) + Length(c0, p) && Boundary(c0, p + Length(c0, p)) && p + Length(c0, p) <= |c0|
  {
    hide BaseLength, ArgLength, KnownOp, Length, Fetch, Pos, PosSoFar, CountReturns;
    PosNext(c0, p);
    var d := p + Length(c0, p);
    forall x | Boundary(c0, x) && x < |c0|
      ensures ReplacedAt(c0, d, c, resultReg, out, x)
    {
      assert ReplacedAt(c0, p, c, resultReg, out, x);
      PassPositions(c0, p, x);
      if CanJump(c0[x]) {
        TargetIsBoundary(c0, x);
        PassPositions(c0, p, Target(c0, x));
        PassPositions(c0, p, Target(c0, x) - 2);
      }
    }
  }

  lemma PassPositions(c0: seq<Word>, p: int, x: int)
    requires Boundary(c0, p) && Fits(c0, p) && !IsReturn(c0[p])
    ensures Boundary(c0, x) ==> PosSoFar(c0, p + Length(c0, p), x) == PosSoFar(c0, p, x)
    ensures Boundary(c0, x) && x < p + Length(c0, p) ==> x <= p
  {
    hide BaseLength, ArgLength, KnownOp;
    PosNext(c0, p);
    if Boundary(c0, x) && p < x {
      InstructionEnds(c0, p, x);
    }
  }

  method ChangeReturnsToJumps(v: CodeVector, resultReg: int, jumpOutDistance: nat)
    requires Sound(v.code) && Closed(v.code) && 0 < jumpOutDistance
    modifies v
    ensures ReplacedSoFar(old(v.code), |old(v.code)|, v.code, resultReg, jumpOutDistance)
  {
    hide BaseLength, ArgLength, KnownOp, Length, Sound, Closed, Tiled, Boundary, Fetch, Pos, CountReturns, GoodJumps, ReplacedAt;
    ghost var c0, p, atExit := v.code, 0, false;
    StartReplacing(c0, resultReg, jumpOutDistance);
    var i := 0;
    while i < |v.code|
      invariant 0 <= p <= |c0| && i == Pos(c0, p) - if atExit then 2 else 0
      invariant 0 <= i && (atExit ==> i < |v.code| && Fits(v.code, i) && v.code[i] == OP_JUMP_TO && Length(v.code, i) == 2)
      invariant ReplacedSoFar(c0, p, v.code, resultReg, jumpOutDistance)
      decreases |c0| - p, atExit
    {
      ghost var c, wasReturn := v.code, false;
      if !atExit {
        PosInside(c0, p, c, resultReg, jumpOutDistance);
        NextReplacement(c0, p, c, resultReg, jumpOutDistance);
      }
      if OP_RETURN_REGISTER == v.code[i] {
        var reg := v.code[i + 1];
        var codeToInsert := [OP_MOVE_REGISTER, SmallintToObject(resultReg), reg,
                             OP_JUMP_TO, SmallintToObject(|v.code| - i - 2 + jumpOutDistance + 1)];
        v.DeleteCode(i, 2);
        ghost var c1 := v.code;
        AfterDelete(c, i, c1);
        v.InsertCode(i, codeToInsert);
        Replace(c0, p, c, c1, v.code, resultReg, jumpOutDistance);
        wasReturn := true;
      } else if OP_RETURN_VALUE == v.code[i] {
        var literal := v.code[i + 1];
        var codeToInsert := [OP_LOAD_LITERAL, SmallintToObject(resultReg), literal,
                             OP_JUMP_TO, SmallintToObject(|v.code| - i - 2 + jumpOutDistance + 1)];
        v.DeleteCode(i, 2);
        ghost var c1 := v.code;
        AfterDelete(c, i, c1);
        v.InsertCode(i, codeToInsert);
        Replace(c0, p, c, c1, v.code, resultReg, jumpOutDistance);
        wasReturn := true;
      }
      if wasReturn {
        ExitShape(v.code, i, c0[p], c0[p + 1], resultReg, jumpOutDistance);
        p, atExit := p + 2, true;
      } else if atExit {
        atExit := false;
      } else {
        Pass(c0, p, c, resultReg, jumpOutDistance);
        p := p + Length(c0, p);
      }
      i := i + Length(v.code, i);
    }
    Finished(c0, p, v.code, resultReg, jumpOutDistance);
  }

  lemma ExitShape(c: seq<Word>, q: int, ret: Word, operand: Word, resultReg: int, out: int)
    requires ExitAt(c, q, ret, operand, resultReg, out)
    ensures 0 <= q && q + 5 <= |c| && Fits(c, q) && Fits(c, q + 3) && Length(c, q) == 3 && Length(c, q + 3) == 2 && c[q + 3] == OP_JUMP_TO
  {
    FetchShows(c, q + 3);
  }

  lemma PosInside(c0: seq<Word>, p: int, c: seq<Word>, resultReg: int, out: int)
    requires ReplacedSoFar(c0, p, c, resultReg, out) && 0 <= p <= |c0| && Pos(c0, p) < |c|
    ensures p < |c0|
  {
  }

  lemma Finished(c0: seq<Word>, p: int, c: seq<Word>, resultReg: int, out: int)
    requires ReplacedSoFar(c0, p, c, resultReg, out) && 0 <= p <= |c0| && Pos(c0, p) >= |c|
    ensures p == |c0|
  {
  }

  // ---------- when the pass is right ----------

  /** Every jump that is not itself a return goes where its target has gone. */
  ghost predicate AllAimed(c0: seq<Word>, c: seq<Word>) {
    forall p | Boundary(c0, p) && p < |c0| && Fits(c0, p) && CanJump(c0[p]) ::
      Fits(c, Pos(c0, p)) && Carried(c0, p, c, Pos(c0, p), Pos(c0, Target(c0, p)))
  }

  /** No jump is one of those that turning returns into jumps gets wrong. */
  ghost predicate ReturnsClear(c: seq<Word>) {
    forall p | Boundary(c, p) && p < |c| && Fits(c, p) && CanJump(c[p]) ::
      !JumpsPastReturn(c, p, Target(c, p)) && !JumpsBackToReturn(c, p, Target(c, p))
  }

  /** The pass re-aims every jump correctly exactly when none jumps forward past a return or back to one. */
  lemma ReturnsExactly(c0: seq<Word>, c: seq<Word>, resultReg: int, out: int)
    requires Sound(c0) && Closed(c0) && ReplacedSoFar(c0, |c0|, c, resultReg, out)
    ensures AllAimed(c0, c) <==> ReturnsClear(c0)
  {
    hide BaseLength, ArgLength, KnownOp, Length, Fetch, Pos, CountReturns, CanJump, JumpParameter, Sound, Closed, ReplacedSoFar;
    forall p | Boundary(c0, p) && p < |c0| && Fits(c0, p) && CanJump(c0[p])
      ensures (Fits(c, Pos(c0, p)) && Carried(c0, p, c, Pos(c0, p), Pos(c0, Target(c0, p)))) <==>
              (!JumpsPastReturn(c0, p, Target(c0, p)) && !JumpsBackToReturn(c0, p, Target(c0, p)))
    {
      ReturnsExactlyAt(c0, c, resultReg, out, p);
    }
  }

  lemma ReturnsExactlyAt(c0: seq<Word>, c: seq<Word>, resultReg: int, out: int, p: int)
    requires Sound(c0) && Closed(c0) && ReplacedSoFar(c0, |c0|, c, resultReg, out)
    requires Boundary(c0, p) && p < |c0| && Fits(c0, p) && CanJump(c0[p])
    ensures (Fits(c, Pos(c0, p)) && Carried(c0, p, c, Pos(c0, p), Pos(c0, Target(c0, p)))) <==>
            (!JumpsPastReturn(c0, p, Target(c0, p)) && !JumpsBackToReturn(c0, p, Target(c0, p)))
  {
    hide BaseLength, ArgLength, KnownOp, Length, Fetch, Pos, CountReturns, JumpParameter, Sound, Closed;
    assert ReplacedAt(c0, |c0|, c, resultReg, out, p);
    TargetIsBoundary(c0, p);
    JumpNoReturn(c0[p]);
    var t, u := Target(c0, p), Fetch(c, Pos(c0, p)).target;
    FetchShows(c0, p);
    FetchShows(c, Pos(c0, p));
    if JumpsPastReturn(c0, p, t) {
      PosMonotone(c0, t - 2, t);
    } else if !JumpsBackToReturn(c0, p, t) {
      JumpAimed(c0, p, c, Pos(c0, p), u, Pos(c0, t));
    }
  }

  lemma JumpAimed(c: seq<Word>, q: int, c2: seq<Word>, q2: int, t: int, u: int)
    requires Fits(c, q) && Carried(c, q, c2, q2, t) && t == u
    ensures Carried(c, q, c2, q2, u)
  {
  }

  lemma JumpNoReturn(op: Word)
    requires CanJump(op)
    ensures !IsReturn(op)
  {
  }

  /** A method body that answers one of two registers: a branch over a return. */
  const TWO_ANSWERS: seq<Word> := [OP_BRANCH_IF_FALSE, 1, 7, OP_RETURN_REGISTER, 3, OP_RETURN_REGISTER, 5]

  lemma TwoAnswersNotClear()
    ensures Sound(TWO_ANSWERS) && Closed(TWO_ANSWERS) && !ReturnsClear(TWO_ANSWERS)
  {
    var c := TWO_ANSWERS;
    TwoAnswersLayout();
    hide BaseLength, ArgLength, KnownOp;
    forall p | Boundary(c, p) && p < |c|
      ensures p == 0 || p == 3 || p == 5
    {
      if 0 < p {
        InstructionEnds(c, 0, p);
        if 3 < p {
          InstructionEnds(c, 3, p);
          if 5 < p {
            InstructionEnds(c, 5, p);
          }
        }
      }
    }
    assert JumpsPastReturn(c, 0, 5);
    assert SoundAt(c, 0) && SoundAt(c, 3) && SoundAt(c, 5);
    assert ClosedAt(c, 0) && ClosedAt(c, 3) && ClosedAt(c, 5);
  }

  lemma TwoAnswersLayout()
    ensures var c := TWO_ANSWERS; Boundary(c, 0) && Boundary(c, 3) && Boundary(c, 5) && Boundary(c, 7) && ReturnAt(c, 3)
    ensures var c := TWO_ANSWERS; Fits(c, 0) && Fits(c, 3) && Fits(c, 5) && Length(c, 0) == 3 && Length(c, 3) == 2 && Length(c, 5) == 2
    ensures var c := TWO_ANSWERS; Fetch(c, 0) == Instr(OP_BRANCH_IF_FALSE, [1, 0], 5) && Target(c, 0) == 5
    ensures var c := TWO_ANSWERS; Fetch(c, 5) == Instr(OP_RETURN_REGISTER, [5], 0)
  {
    var c := TWO_ANSWERS;
    assert Fits(c, 0) && Length(c, 0) == 3 && Target(c, 0) == 5;
    assert Fits(c, 3) && Length(c, 3) == 2 && Fits(c, 5) && Length(c, 5) == 2;
    assert Tiled(c, 0, 0) && Tiled(c, 7, 7) && Tiled(c, 5, 5) && Tiled(c, 3, 3);
    assert Tiled(c, 5, 7) && Tiled(c, 3, 5);
    assert Tiled(c, 3, 7) && Tiled(c, 0, 3) && Tiled(c, 0, 5);
    assert c[1..3] == [1, 7] && c[6..7] == [5];
  }

  /**
   * What it does when the branch is taken: it answers the second register.  The code that the pass makes of it, whatever
   * the result register and the distance are, goes on with the words that replace the first return, so that it leaves
   * with the other register's contents in the result register.
   */
  lemma TwoAnswersGoWrong(m: Machine, ctx: Context, c: seq<Word>, resultReg: nat, out: nat, regs: Registers, world: World)
    requires ReplacedSoFar(TWO_ANSWERS, |TWO_ANSWERS|, c, resultReg, out) && Get(regs, 0) == m.falseObject
    ensures Run(m, ctx, TWO_ANSWERS, State(0, regs, world), 2) == Some(Return(Get(regs, 2), world))
    ensures StepAt(m, ctx, c, State(0, regs, world)) == Goto(State(3, regs, world))
    ensures StepAt(m, ctx, c, State(3, regs, world)) == Goto(State(6, regs[resultReg := Get(regs, 1)], world))
    ensures StepAt(m, ctx, c, State(6, regs[resultReg := Get(regs, 1)], world)) == Goto(State(|c| + out, regs[resultReg := Get(regs, 1)], world))
  {
    var c0 := TWO_ANSWERS;
    TwoAnswersLayout();
    hide BaseLength, ArgLength, KnownOp, Length, Boundary, Fetch, Pos;
    assert Pos(c0, 0) == 0 by { NothingBefore(c0); }
    PosNext(c0, 0);
    assert ReplacedAt(c0, 7, c, resultReg, out, 0);
    assert ReplacedAt(c0, 7, c, resultReg, out, 3);
    assert JumpsPastReturn(c0, 0, 5);
    assert Fetch(c, 0) == Instr(OP_BRANCH_IF_FALSE, [1, 0], 3) && Length(c, 0) == 3;
    assert ExitAt(c, 3, OP_RETURN_REGISTER, 3, resultReg, out);
    WordIn(resultReg);
    TwoAnswersRun(m, ctx, regs, world);
  }

  lemma NothingBefore(c: seq<Word>)
    ensures Pos(c, 0) == 0
  {
    assert CountReturns(c, 0, 0) == 0;
  }

  lemma WordIn(x: int)
    ensures ObjectToSmallint(SmallintToObject(x)) == x
  {
  }

  lemma TwoAnswersRun(m: Machine, ctx: Context, regs: Registers, world: World)
    requires Get(regs, 0) == m.falseObject
    ensures Run(m, ctx, TWO_ANSWERS, State(0, regs, world), 2) == Some(Return(Get(regs, 2), world))
  {
    TwoAnswersLayout();
    hide BaseLength, ArgLength, KnownOp, Length, Fits, Boundary, Fetch;
    var c := TWO_ANSWERS;
    assert StepAt(m, ctx, c, State(0, regs, world)) == Goto(State(5, regs, world));
    assert StepAt(m, ctx, c, State(5, regs, world)) == Done(Return(Get(regs, 2), world));
    assert Run(m, ctx, c, State(5, regs, world), 1) == Some(Return(Get(regs, 2), world));
  }

  // ---------- the condition, on code that still has its variable instructions ----------

  /** From a up to b there are only variable instructions, which the optimizer deletes. */
  ghost predicate Skippable(c: seq<Word>, a: int, b: int) {
    Tiled(c, a, b) && forall q | a <= q < b && Boundary(c, q) && Fits(c, q) :: IsVariableOp(c[q])
  }

  /** The jump at p goes forward past a return, to an instruction that will come right behind it. */
  ghost predicate WillJumpPast(c: seq<Word>, p: int, t: int, r: int) {
    ReturnAt(c, r) && p < r && r + 2 <= t && Skippable(c, r + 2, t)
  }

  /** The jump at p goes back to what will be a return. */
  ghost predicate WillJumpBack(c: seq<Word>, p: int, t: int, r: int) {
    ReturnAt(c, r) && t <= r < p && Skippable(c, t, r)
  }

  /** No jump will be one of those the pass gets wrong once the variable instructions are gone. */
  ghost predicate ClearOfReturns(c: seq<Word>) {
    forall p, r | Boundary(c, p) && p < |c| && Fits(c, p) && CanJump(c[p]) && ReturnAt(c, r) ::
      !WillJumpPast(c, p, Target(c, p), r) && !WillJumpBack(c, p, Target(c, p), r)
  }

  lemma ClearNow(c: seq<Word>)
    requires ClearOfReturns(c)
    ensures ReturnsClear(c)
  {
    forall p | Boundary(c, p) && p < |c| && Fits(c, p) && CanJump(c[p])
      ensures !JumpsPastReturn(c, p, Target(c, p)) && !JumpsBackToReturn(c, p, Target(c, p))
    {
      NowAtOnce(c, p, Target(c, p));
    }
  }

  lemma NowAtOnce(c: seq<Word>, p: int, t: int)
    ensures JumpsPastReturn(c, p, t) ==> WillJumpPast(c, p, t, t - 2)
    ensures JumpsBackToReturn(c, p, t) ==> WillJumpBack(c, p, t, t)
  {
    if JumpsPastReturn(c, p, t) {
      ReturnLength(c, t - 2);
      assert Skippable(c, t, t);
    }
    if JumpsBackToReturn(c, p, t) {
      assert Skippable(c, t, t);
    }
  }

  /** Without variable instructions the bad jumps to come are the bad jumps there are. */
  lemma PlainClear(c: seq<Word>)
    requires Sound(c) && Closed(c) && forall p | Boundary(c, p) && p < |c| :: !IsVariableOp(c[p])
    ensures ClearOfReturns(c) <==> ReturnsClear(c)
  {
    hide WillJumpPast, WillJumpBack, JumpsPastReturn, JumpsBackToReturn;
    if ClearOfReturns(c) {
      ClearNow(c);
    }
    if ReturnsClear(c) {
      forall p, r | Boundary(c, p) && p < |c| && Fits(c, p) && CanJump(c[p]) && ReturnAt(c, r)
        ensures !WillJumpPast(c, p, Target(c, p), r) && !WillJumpBack(c, p, Target(c, p), r)
      {
        TargetIsBoundary(c, p);
        NowOnly(c, p, Target(c, p), r);
      }
    }
  }

  lemma NowOnly(c: seq<Word>, p: int, t: int, r: int)
    requires Sound(c) && (forall q | Boundary(c, q) && q < |c| :: !IsVariableOp(c[q])) && ReturnAt(c, r)
    ensures WillJumpPast(c, p, t, r) ==> JumpsPastReturn(c, p, t)
    ensures WillJumpBack(c, p, t, r) && Boundary(c, t) ==> JumpsBackToReturn(c, p, t)
  {
    ReturnLength(c, r);
    InstructionEnds0(c, r);
    hide BaseLength, ArgLength, KnownOp, Length;
    NothingSkipped(c, r + 2, t);
    NothingSkipped(c, t, r);
  }

  lemma NothingSkipped(c: seq<Word>, a: int, b: int)
    requires forall q | Boundary(c, q) && q < |c| :: !IsVariableOp(c[q])
    ensures Boundary(c, a) && Skippable(c, a, b) ==> a == b
  {
  }

  /** Deleting a variable instruction neither brings a bad jump about nor takes one away. */
  lemma CutClear(c0: seq<Word>, o: nat, c: seq<Word>)
    requires Cut(c0, o, 2, c) && Sound(c0) && Closed(c0) && IsVariableOp(c0[o])
    ensures ClearOfReturns(c0) <==> ClearOfReturns(c)
  {
    hide Sound, Closed, Cut, WillJumpPast, WillJumpBack, ClearOfReturns;
    if ClearOfReturns(c0) {
      StaysClear(c0, o, c);
    }
    if ClearOfReturns(c) {
      WasClear(c0, o, c);
    }
  }

  lemma StaysClear(c0: seq<Word>, o: nat, c: seq<Word>)
    requires Cut(c0, o, 2, c) && Sound(c0) && Closed(c0) && IsVariableOp(c0[o]) && ClearOfReturns(c0)
    ensures ClearOfReturns(c)
  {
    hide Sound, Closed, Cut, WillJumpPast, WillJumpBack;
    forall p, r | Boundary(c, p) && p < |c| && Fits(c, p) && CanJump(c[p]) && ReturnAt(c, r)
      ensures !WillJumpPast(c, p, Target(c, p), r) && !WillJumpBack(c, p, Target(c, p), r)
    {
      var p0, r0 := BadJumpBefore(c0, o, c, p, r);
    }
  }

  lemma WasClear(c0: seq<Word>, o: nat, c: seq<Word>)
    requires Cut(c0, o, 2, c) && Sound(c0) && Closed(c0) && IsVariableOp(c0[o]) && ClearOfReturns(c)
    ensures ClearOfReturns(c0)
  {
    hide Sound, Closed, Cut, WillJumpPast, WillJumpBack;
    forall p0, r0 | Boundary(c0, p0) && p0 < |c0| && Fits(c0, p0) && CanJump(c0[p0]) && ReturnAt(c0, r0)
      ensures !WillJumpPast(c0, p0, Target(c0, p0), r0) && !WillJumpBack(c0, p0, Target(c0, p0), r0)
    {
      var p, r := BadJumpAfter(c0, o, c, p0, r0);
    }
  }

  /** A bad jump in the original is one in the shortened code. */
  lemma BadJumpAfter(c0: seq<Word>, o: nat, c: seq<Word>, p0: int, r0: int) returns (p: int, r: int)
    requires Cut(c0, o, 2, c) && Sound(c0) && Closed(c0) && IsVariableOp(c0[o])
    requires Boundary(c0, p0) && p0 < |c0| && Fits(c0, p0) && CanJump(c0[p0]) && ReturnAt(c0, r0)
    ensures Boundary(c, p) && p < |c| && Fits(c, p) && CanJump(c[p]) && ReturnAt(c, r)
    ensures WillJumpPast(c0, p0, Target(c0, p0), r0) ==> WillJumpPast(c, p, Target(c, p), r)
    ensures WillJumpBack(c0, p0, Target(c0, p0), r0) ==> WillJumpBack(c, p, Target(c, p), r)
  {
    hide BaseLength, ArgLength, KnownOp, Length, Fetch, Skippable, Sound, Closed, Cut;
    ReturnInside(c0, r0);
    p := KeptInstruction(c0, o, c, p0);
    r := KeptInstruction(c0, o, c, r0);
    TargetIsBoundary(c0, p0);
    CutPlace(c0, o, c);
    var t0 := Target(c0, p0);
    AroundCut(c0, o, p0);
    AroundCut(c0, o, r0);
    AroundCut(c0, o, t0);
    AroundCut(c0, o, r0 + 2);
    ReturnLength(c0, r0);
    InstructionEnds0(c0, r0);
    if WillJumpPast(c0, p0, t0, r0) {
      SkippableCut(c0, o, c, r0 + 2, t0);
    }
    if WillJumpBack(c0, p0, t0, r0) {
      SkippableCut(c0, o, c, t0, r0);
    }
  }

  /** Any other instruction stays what it is. */
  lemma KeptInstruction(c0: seq<Word>, o: nat, c: seq<Word>, p0: int) returns (p: int)
    requires Cut(c0, o, 2, c) && Sound(c0) && IsVariableOp(c0[o])
    requires Boundary(c0, p0) && p0 < |c0| && Fits(c0, p0) && !IsVariableOp(c0[p0])
    ensures p == CutPc(o, 2, p0) && p0 != o && Boundary(c, p) && p < |c| && Fits(c, p) && c[p] == c0[p0]
    ensures CanJump(c0[p0]) ==> Target(c, p) == CutPc(o, 2, Target(c0, p0))
  {
    hide BaseLength, ArgLength, KnownOp, Length, Fetch, Sound;
    CutPlace(c0, o, c);
    AroundCut(c0, o, p0);
    CutBoundary(c0, o, 2, c, p0);
    p := CutPc(o, 2, p0);
    assert |c| == |c0| - 2;
    var q := CutInstruction(c0, o, 2, c, p);
    FetchShows(c, p);
    FetchShows(c0, p0);
  }

  /** What was skippable is skippable in the shortened code. */
  lemma SkippableCut(c0: seq<Word>, o: nat, c: seq<Word>, a: int, b: int)
    requires Cut(c0, o, 2, c) && Sound(c0) && Boundary(c0, a) && Boundary(c0, b) && a <= b && Skippable(c0, a, b)
    requires (a <= o || o + 2 <= a) && (b <= o || o + 2 <= b)
    ensures Skippable(c, CutPc(o, 2, a), CutPc(o, 2, b))
  {
    hide BaseLength, ArgLength, KnownOp, Length, Fetch, Sound;
    var a', b' := CutPc(o, 2, a), CutPc(o, 2, b);
    CutBoundary(c0, o, 2, c, a);
    CutBoundary(c0, o, 2, c, b);
    BoundaryIsTiled(c, b');
    TiledRest(c, 0, a', b');
    forall q | a' <= q < b' && Boundary(c, q) && Fits(c, q)
      ensures IsVariableOp(c[q])
    {
      var q0 := CutInstruction(c0, o, 2, c, q);
      FetchShows(c, q);
      FetchShows(c0, q0);
    }
  }

  /** A bad jump in the shortened code was one in the original. */
  lemma BadJumpBefore(c0: seq<Word>, o: nat, c: seq<Word>, p: int, r: int) returns (p0: int, r0: int)
    requires Cut(c0, o, 2, c) && Sound(c0) && Closed(c0) && IsVariableOp(c0[o])
    requires Boundary(c, p) && p < |c| && Fits(c, p) && CanJump(c[p]) && ReturnAt(c, r)
    ensures Boundary(c0, p0) && p0 < |c0| && Fits(c0, p0) && CanJump(c0[p0]) && ReturnAt(c0, r0)
    ensures WillJumpPast(c, p, Target(c, p), r) ==> WillJumpPast(c0, p0, Target(c0, p0), r0)
    ensures WillJumpBack(c, p, Target(c, p), r) ==> WillJumpBack(c0, p0, Target(c0, p0), r0)
  {
    hide BaseLength, ArgLength, KnownOp, Length, Fetch, Skippable, Sound, Closed, Cut;
    ReturnInside(c, r);
    p0 := CutInstruction(c0, o, 2, c, p);
    r0 := CutInstruction(c0, o, 2, c, r);
    FetchShows(c, p);
    FetchShows(c0, p0);
    FetchShows(c, r);
    FetchShows(c0, r0);
    TargetIsBoundary(c0, p0);
    assert ReturnAt(c0, r0);
    CutPlace(c0, o, c);
    var t0 := Target(c0, p0);
    AroundCut(c0, o, t0);
    AroundCut(c0, o, r0 + 2);
    ReturnLength(c0, r0);
    InstructionEnds0(c0, r0);
    if WillJumpPast(c, p, Target(c, p), r) {
      CutSkippable(c0, o, c, r0 + 2, t0);
    }
    if WillJumpBack(c, p, Target(c, p), r) {
      CutSkippable(c0, o, c, t0, r0);
    }
  }

  lemma ReturnInside(c: seq<Word>, r: int)
    requires ReturnAt(c, r)
    ensures Boundary(c, r) && r < |c|
  {
  }

  lemma CutPlace(c0: seq<Word>, o: nat, c: seq<Word>)
    requires Cut(c0, o, 2, c)
    ensures Boundary(c0, o) && Boundary(c0, o + 2) && Fits(c0, o) && Length(c0, o) == 2
  {
  }

  lemma AroundCut(c0: seq<Word>, o: nat, x: int)
    requires Boundary(c0, o) && Fits(c0, o) && Length(c0, o) == 2
    ensures Boundary(c0, x) ==> x <= o || o + 2 <= x
  {
    if Boundary(c0, x) && o < x {
      InstructionEnds(c0, o, x);
    }
  }

  /** What is skippable in the shortened code was skippable before. */
  lemma CutSkippable(c0: seq<Word>, o: nat, c: seq<Word>, a: int, b: int)
    requires Cut(c0, o, 2, c) && Sound(c0) && IsVariableOp(c0[o]) && Boundary(c0, a) && Boundary(c0, b)
    requires Skippable(c, CutPc(o, 2, a), CutPc(o, 2, b)) && (a <= o || o + 2 <= a) && (b <= o || o + 2 <= b)
    requires a <= b || CutPc(o, 2, a) < CutPc(o, 2, b)
    ensures Skippable(c0, a, b)
  {
    hide BaseLength, ArgLength, KnownOp, Length, Fetch, Sound;
    TiledRest(c0, 0, a, b);
    forall q | a <= q < b && Boundary(c0, q) && Fits(c0, q)
      ensures IsVariableOp(c0[q])
    {
      if q != o {
        AroundCut(c0, o, q);
        CutBoundary(c0, o, 2, c, q);
        var q' := CutPc(o, 2, q);
        assert |c| == |c0| - 2;
        var q0 := CutInstruction(c0, o, 2, c, q');
        FetchShows(c, q');
        FetchShows(c0, q0);
      }
    }
  }

  // ---------- all the instructions of the rewritten code ----------

  /** Every instruction of the rewritten code is an instruction of the original or belongs to an exit. */
  lemma {:induction false} RewrittenInstruction(c0: seq<Word>, c: seq<Word>, resultReg: int, out: int, p: int, q: int) returns (x: int)
    requires Sound(c0) && ReplacedSoFar(c0, |c0|, c, resultReg, out)
    requires Boundary(c0, p) && Pos(c0, p) <= q < |c| && Boundary(c, q)
    ensures Boundary(c0, x) && x < |c0| && Fits(c0, x) && (q == Pos(c0, x) || (q == Pos(c0, x) + 3 && IsReturn(c0[x])))
    decreases |c0| - p
  {
    hide BaseLength, ArgLength, KnownOp, Length, Fetch, Pos, CountReturns, ExitAt, Sound;
    BeforeEnd(c0, c, resultReg, out, p);
    assert ReplacedAt(c0, |c0|, c, resultReg, out, p);
    LastPos(c0, p);
    PosNext(c0, p);
    x := p;
    if q != Pos(c0, p) {
      if IsReturn(c0[p]) {
        ReturnLength(c0, p);
        FitsInside(c0, p);
        ExitShape(c, Pos(c0, p), c0[p], c0[p + 1], resultReg, out);
        ExitBoundaries(c, Pos(c0, p), c0[p], c0[p + 1], resultReg, out);
        InstructionEnds(c, Pos(c0, p), q);
        if q != Pos(c0, p) + 3 {
          InstructionEnds(c, Pos(c0, p) + 3, q);
          x := RewrittenInstruction(c0, c, resultReg, out, p + 2, q);
        }
      } else {
        FetchShows(c, Pos(c0, p));
        InstructionEnds(c, Pos(c0, p), q);
        x := RewrittenInstruction(c0, c, resultReg, out, p + Length(c0, p), q);
      }
    }
  }

  lemma BeforeEnd(c0: seq<Word>, c: seq<Word>, resultReg: int, out: int, p: int)
    requires Sound(c0) && ReplacedSoFar(c0, |c0|, c, resultReg, out) && Boundary(c0, p) && Pos(c0, p) < |c|
    ensures p < |c0| && Fits(c0, p)
  {
    BoundaryIsTiled(c0, p);
    if p < |c0| {
      assert SoundAt(c0, p);
    }
  }

  lemma ExitBoundaries(c: seq<Word>, q: int, ret: Word, operand: Word, resultReg: int, out: int)
    requires ExitAt(c, q, ret, operand, resultReg, out)
    ensures Boundary(c, q) && Boundary(c, q + 3)
  {
  }

  lemma FitsInside(c: seq<Word>, p: int)
    requires Fits(c, p)
    ensures 0 <= p && 1 <= Length(c, p) && p + Length(c, p) <= |c|
  {
  }

  lemma LastPos(c: seq<Word>, p: int)
    ensures p <= |c| ==> PosSoFar(c, |c|, p) == Pos(c, p)
  {
  }
}

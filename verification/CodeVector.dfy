/** In-place editing of a code vector: inserting and deleting instructions while re-aiming relative jumps. */
module CodeVectors {
  import opened Opcodes

  /** An edit at position `at`: `size` words come in there, or go away. */
  datatype Edit = Inserting(at: nat, size: nat) | Deleting(at: nat, size: nat) {

    /** Where the instruction at p (not a deleted one) ends up. */
    function Moved(p: int): int {
      if p < at then p else if Inserting? then p + size else p - size
    }

    /**
     * Where a jump at p with target t has to go after the edit.  A jump from before the insertion point to
     * exactly that point lands on the new code; one from at or after it lands behind the new code.
     */
    function MovedTarget(p: int, t: int): int {
      if Inserting? then
        if p < at then (if t > at then t + size else t) else (if t < at then t else t + size)
      else
        if t > at then t - size else t
    }
  }

  /** The operand of every jump is a tagged word and no jump goes below the start. */
  ghost predicate GoodJumps(code: seq<Word>) {
    forall p | Boundary(code, p) && p < |code| ::
      Fits(code, p) && (CanJump(code[p]) ==> IsSmallint(code[p + JumpParameter(code[p])]) && 0 <= Target(code, p))
  }

  /** The instruction at p in c0 is at p' in c, aimed at t, and equal in everything else. */
  ghost predicate Carried(c0: seq<Word>, p: int, c: seq<Word>, p': int, t: int)
    requires Fits(c0, p)
  {
    Fits(c, p') && Length(c, p') == Length(c0, p) && Fetch(c, p') == Retarget(Fetch(c0, p), t)
    && (CanJump(c0[p]) && IsSmallint(c0[p + JumpParameter(c0[p])]) ==> IsSmallint(c[p' + JumpParameter(c[p'])]))
  }

  /** Before the words move: the target that makes the jump right once they have moved. */
  ghost function Aim(e: Edit, p: int, t: int): int {
    e.MovedTarget(p, t) - (e.Moved(p) - p)
  }

  ghost predicate Survives(c: seq<Word>, e: Edit, p: int) {
    Boundary(c, p) && p < |c| && Fits(c, p) && (e.Deleting? ==> p < e.at || e.at + e.size <= p)
  }

  /** All instructions before i have been re-aimed for the edit. */
  ghost predicate Aimed(c0: seq<Word>, c: seq<Word>, e: Edit, i: int) {
    forall p | Survives(c0, e, p) && p < i :: Carried(c0, p, c, p, Aim(e, p, Fetch(c0, p).target))
  }

  /** The effect of an edit: every surviving instruction is carried along, and nothing else stays of the old code. */
  ghost predicate Edited(c0: seq<Word>, e: Edit, c: seq<Word>) {
    && |c| == (if e.Inserting? then |c0| + e.size else |c0| - e.size)
    && forall p | Survives(c0, e, p) ::
         Carried(c0, p, c, e.Moved(p), e.MovedTarget(p, Fetch(c0, p).target))
  }

  /** Where a jump goes when words are put in: to the same instruction, but one from before the place to the place goes to the new words. */
  lemma InsertedJump(c0: seq<Word>, o: nat, n: nat, c: seq<Word>, p: int)
    requires Edited(c0, Inserting(o, n), c) && Boundary(c0, p) && p < |c0| && Fits(c0, p) && CanJump(c0[p])
    ensures var q := if p < o then p else p + n; var t := Target(c0, p);
      && Fits(c, q) && c[q] == c0[p]
      && (t < o ==> Target(c, q) == t) && (t > o ==> Target(c, q) == t + n) && (t == o ==> Target(c, q) == if p < o then o else o + n)
  {
    hide BaseLength, ArgLength, KnownOp, Length;
    assert Survives(c0, Inserting(o, n), p);
  }

  /** And where they go when words are taken out: to the same instruction, or to what is behind the words. */
  lemma DeletedJump(c0: seq<Word>, o: nat, n: nat, c: seq<Word>, p: int)
    requires Edited(c0, Deleting(o, n), c) && Boundary(c0, p) && p < |c0| && Fits(c0, p) && CanJump(c0[p]) && (p < o || o + n <= p)
    requires Target(c0, p) <= o || o + n <= Target(c0, p)
    ensures var q := if p < o then p else p - n; var t := Target(c0, p);
      Fits(c, q) && c[q] == c0[p] && Target(c, q) == if t <= o then t else t - n
  {
    hide BaseLength, ArgLength, KnownOp, Length;
    assert Survives(c0, Deleting(o, n), p);
  }

  lemma SubSlice(c: seq<Word>, at: int, b: seq<Word>, lo: int, n: int)
    requires 0 <= at && at + |b| <= |c| && c[at..at + |b|] == b && 0 <= lo && 0 <= n && lo + n <= |b|
    ensures c[at + lo..at + lo + n] == b[lo..lo + n]
  {
    var x, y := c[at + lo..at + lo + n], b[lo..lo + n];
    forall k | 0 <= k < n
      ensures x[k] == y[k]
    {
      assert c[at..at + |b|][lo + k] == b[lo + k];
    }
  }

  lemma SliceWord(c: seq<Word>, lo: int, hi: int, k: int)
    requires 0 <= lo <= hi <= |c| && 0 <= k < hi - lo
    ensures c[lo..hi][k] == c[lo + k]
  {
  }

  lemma CarriedSlice(c0: seq<Word>, p: int, c: seq<Word>, q: int, t: int, c': seq<Word>, q': int)
    requires Fits(c0, p) && Carried(c0, p, c, q, t)
    requires 0 <= q' && q' + Length(c0, p) <= |c'|
    requires c'[q'..q' + Length(c0, p)] == c[q..q + Length(c0, p)]
    ensures Carried(c0, p, c', q', t + q' - q)
  {
    SameWords(c, q, c', q');
    var n := Length(c0, p);
    if CanJump(c0[p]) {
      var k := JumpParameter(c0[p]);
      SliceWord(c', q', q' + n, k);
      SliceWord(c, q, q + n, k);
      SliceWord(c', q', q' + n, 0);
      SliceWord(c, q, q + n, 0);
    }
  }

  /** Re-aiming one instruction touches no word of any other and does not change its length. */
  lemma AimOne(c0: seq<Word>, c: seq<Word>, i: int, d: int, c': seq<Word>)
    requires Fits(c0, i) && |c| == |c0| && c[i..] == c0[i..]
    requires c' == if CanJump(c0[i]) then c[i + JumpParameter(c0[i]) := c[i + JumpParameter(c0[i])] + 2 * d] else c
    ensures Carried(c0, i, c', i, Fetch(c0, i).target + d)
    ensures |c'| == |c0| && c'[..i] == c[..i] && c'[i + Length(c0, i)..] == c0[i + Length(c0, i)..]
  {
    var n := Length(c0, i);
    assert c[i..i + n] == c[i..][..n] == c0[i..i + n];
    SameWords(c0, i, c, i);
    assert c[i] == c[i..][0] == c0[i..][0] == c0[i];
    assert c'[i + n..] == c[i + n..] == c[i..][n..] == c0[i..][n..] == c0[i + n..];
    if CanJump(c0[i]) {
      assert c[i + JumpParameter(c0[i])] == c[i..][JumpParameter(c0[i])] == c0[i..][JumpParameter(c0[i])] == c0[i + JumpParameter(c0[i])];
      AimJump(c0, c, i, d, c');
    }
  }

  lemma AimJump(c0: seq<Word>, c: seq<Word>, i: int, d: int, c': seq<Word>)
    requires Fits(c0, i) && Fits(c, i) && |c| == |c0| && Length(c, i) == Length(c0, i) && c[i] == c0[i] && CanJump(c0[i])
    requires Fetch(c, i) == Retarget(Fetch(c0, i), Fetch(c0, i).target) && c[i + JumpParameter(c0[i])] == c0[i + JumpParameter(c0[i])]
    requires c' == c[i + JumpParameter(c0[i]) := c[i + JumpParameter(c0[i])] + 2 * d]
    ensures Carried(c0, i, c', i, Fetch(c0, i).target + d)
  {
    hide BaseLength, KnownOp;
    var n, k := Length(c0, i), JumpParameter(c0[i]);
    assert c'[i] == c[i];
    assert c'[i + 1..i + n] == c[i + 1..i + n][k - 1 := c'[i + k]];
    assert c'[i + 1..i + n][k - 1 := 0] == c[i + 1..i + n][k - 1 := 0];
  }

  /** The state of a re-aiming loop at i. */
  ghost predicate Reaiming(c0: seq<Word>, c: seq<Word>, e: Edit, i: int) {
    && 0 <= i <= |c0| == |c| && Boundary(c0, i) && Boundary(c0, |c0|) && GoodJumps(c0)
    && c[i..] == c0[i..] && Aimed(c0, c, e, i)
  }

  /** What the loop reads at i is what the original code holds there. */
  lemma ReadAhead(c0: seq<Word>, c: seq<Word>, e: Edit, i: int)
    requires Reaiming(c0, c, e, i) && i < |c0|
    ensures Fits(c, i) && Fits(c0, i) && Length(c, i) == Length(c0, i) >= 1 && c[i] == c0[i]
    ensures CanJump(c[i]) ==>
      i < i + JumpParameter(c[i]) < |c| && IsSmallint(c[i + JumpParameter(c[i])]) && Target(c, i) == Target(c0, i)
  {
    InstructionEnds(c0, i, |c0|);
    var n := Length(c0, i);
    assert c[i..i + n] == c[i..][..n] == c0[i..][..n] == c0[i..i + n];
    SameWords(c0, i, c, i);
    assert c[i] == c[i..][0] == c0[i..][0] == c0[i];
    if CanJump(c[i]) {
      assert c[i + JumpParameter(c[i])] == c[i..][JumpParameter(c[i])] == c0[i..][JumpParameter(c[i])];
    }
  }

  /** The step of a re-aiming loop. */
  lemma AimNext(c0: seq<Word>, c: seq<Word>, e: Edit, i: int, d: int, c': seq<Word>)
    requires Reaiming(c0, c, e, i) && i < |c0| && Fits(c0, i) && c[i] == c0[i]
    requires c' == if CanJump(c0[i]) then c[i + JumpParameter(c0[i]) := c[i + JumpParameter(c0[i])] + 2 * d] else c
    requires Survives(c0, e, i) && CanJump(c0[i]) ==> Fetch(c0, i).target + d == Aim(e, i, Fetch(c0, i).target)
    ensures Reaiming(c0, c', e, i + Length(c0, i))
    ensures Fits(c', i) && Length(c', i) == Length(c0, i)
  {
    hide BaseLength, ArgLength, KnownOp, CanJump, JumpParameter, GoodJumps;
    AimOne(c0, c, i, d, c');
    InstructionEnds(c0, i, |c0|);
    forall p | Survives(c0, e, p) && p < i + Length(c0, i)
      ensures Carried(c0, p, c', p, Aim(e, p, Fetch(c0, p).target))
    {
      if p > i {
        InstructionEnds(c0, i, p);
      } else if p < i {
        InstructionEnds(c0, p, i);
        var n := Length(c0, p);
        assert c'[p..p + n] == c'[..i][p..p + n] == c[..i][p..p + n] == c[p..p + n];
        CarriedSlice(c0, p, c, p, Aim(e, p, Fetch(c0, p).target), c', p);
      }
    }
  }

  lemma LengthInside(c: seq<Word>, p: int)
    requires Fits(c, p)
    ensures 1 <= Length(c, p) && p + Length(c, p) <= |c|
  {
  }

  /** What a replacement of the words from lo up to hi leaves of a stretch that lies before or behind them. */
  lemma BeforeAndBehind(c: seq<Word>, lo: int, hi: int, ins: seq<Word>, c': seq<Word>, p: int, n: int)
    requires 0 <= lo <= hi <= |c| && c' == c[..lo] + ins + c[hi..] && 0 <= p && 0 <= n
    ensures p + n <= lo ==> c'[p..p + n] == c[p..p + n]
    ensures hi <= p && p + n <= |c| ==> c'[p + lo + |ins| - hi..p + lo + |ins| - hi + n] == c[p..p + n]
  {
    if p + n <= lo {
      assert c'[..lo] == c[..lo];
      assert c'[p..p + n] == c'[..lo][p..p + n];
    }
    if hi <= p && p + n <= |c| {
      var d := lo + |ins|;
      assert c'[d..] == c[hi..];
      assert c'[p + d - hi..p + d - hi + n] == c'[d..][p - hi..p - hi + n] == c[hi..][p - hi..p - hi + n] == c[p..p + n];
    }
  }

  /** Moving the words completes an insertion. */
  lemma FinishInsert(c0: seq<Word>, c: seq<Word>, e: Edit, ins: seq<Word>, c': seq<Word>)
    requires e.Inserting? && e.at <= |c0| == |c| && e.size == |ins| && Boundary(c0, e.at)
    requires Aimed(c0, c, e, |c0|) && c' == c[..e.at] + ins + c[e.at..]
    ensures Edited(c0, e, c')
  {
    hide BaseLength, ArgLength, KnownOp, CanJump, JumpParameter, Fetch, Carried, Length, Tiled;
    forall p | Survives(c0, e, p)
      ensures Carried(c0, p, c', e.Moved(p), e.MovedTarget(p, Fetch(c0, p).target))
    {
      if p < e.at {
        InstructionEnds(c0, p, e.at);
      }
      LengthInside(c0, p);
      BeforeAndBehind(c, e.at, e.at, ins, c', p, Length(c0, p));
      CarriedSlice(c0, p, c, p, Aim(e, p, Fetch(c0, p).target), c', e.Moved(p));
    }
  }

  /** Moving the words completes a deletion. */
  lemma FinishDelete(c0: seq<Word>, c: seq<Word>, e: Edit, c': seq<Word>)
    requires e.Deleting? && e.at + e.size <= |c0| == |c| && Boundary(c0, e.at)
    requires Aimed(c0, c, e, |c0|) && c' == c[..e.at] + c[e.at + e.size..]
    ensures Edited(c0, e, c')
  {
    hide BaseLength, ArgLength, KnownOp, CanJump, JumpParameter, Fetch, Carried, Length, Tiled;
    assert c' == c[..e.at] + [] + c[e.at + e.size..];
    forall p | Survives(c0, e, p)
      ensures Carried(c0, p, c', e.Moved(p), e.MovedTarget(p, Fetch(c0, p).target))
    {
      if p < e.at {
        InstructionEnds(c0, p, e.at);
      }
      LengthInside(c0, p);
      BeforeAndBehind(c, e.at, e.at + e.size, [], c', p, Length(c0, p));
      CarriedSlice(c0, p, c, p, Aim(e, p, Fetch(c0, p).target), c', e.Moved(p));
    }
  }

  // ---------- what the loops compute ----------

  lemma StartAiming(c: seq<Word>, e: Edit)
    requires Boundary(c, |c|) && GoodJumps(c)
    ensures Reaiming(c, c, e, 0)
  {
    assert Tiled(c, 0, 0);
  }

  /** Before o, the instruction at i ends at or before o. */
  lemma AheadOf(c0: seq<Word>, c: seq<Word>, e: Edit, i: int, o: int)
    requires Reaiming(c0, c, e, i) && i < o && Boundary(c0, o) && Fits(c0, i)
    ensures i + Length(c0, i) <= o
  {
    InstructionEnds(c0, i, o);
  }

  lemma BoundaryInside(c: seq<Word>, p: int)
    requires Boundary(c, p)
    ensures 0 <= p <= |c|
  {
  }

  lemma AimingDone(c0: seq<Word>, c: seq<Word>, e: Edit)
    requires Reaiming(c0, c, e, |c0|)
    ensures Aimed(c0, c, e, |c0|) && |c| == |c0|
  {
  }

  lemma JumpOf(c: seq<Word>, i: nat)
    requires Fits(c, i) && CanJump(c[i])
    ensures Target(c, i) == i + Length(c, i) + ObjectToSmallint(c[i + JumpParameter(c[i])]) + JumpAdjustment(c[i])
  {
  }

  /** How far a jump must be re-aimed for an insertion. */
  lemma InsertAim(c: seq<Word>, e: Edit, i: int)
    requires Fits(c, i) && e.Inserting?
    ensures CanJump(c[i]) ==>
      Aim(e, i, Fetch(c, i).target) == Fetch(c, i).target
        + if i < e.at then (if Target(c, i) > e.at then e.size else 0) else if Target(c, i) < e.at then -(e.size as int) else 0
  {
  }

  /** How far a jump must be re-aimed for a deletion. */
  lemma DeleteAim(c: seq<Word>, e: Edit, i: int)
    requires Fits(c, i) && e.Deleting?
    ensures CanJump(c[i]) && Survives(c, e, i) ==>
      Aim(e, i, Fetch(c, i).target) == Fetch(c, i).target
        + if i < e.at then (if Target(c, i) > e.at then -(e.size as int) else 0) else if Target(c, i) <= e.at then e.size else 0
  {
  }

  class CodeVector {
    var code: seq<Word>

    constructor (words: seq<Word>)
      ensures code == words
    {
      code := words;
    }

    /** Adds to the tagged small integer at pos. */
    method OffsetValue(pos: nat, offset: int)
      requires pos < |code| && IsSmallint(code[pos])
      modifies this
      ensures code == old(code)[pos := old(code)[pos] + 2 * offset]
    {
      code := code[pos := SmallintToObject(ObjectToSmallint(code[pos]) + offset)];
    }

    method InsertCode(offset: nat, newCode: seq<Word>)
      requires Boundary(code, offset) && Boundary(code, |code|) && GoodJumps(code)
      modifies this
      ensures Edited(old(code), Inserting(offset, |newCode|), code)
      ensures |code| == |old(code)| + |newCode| && code[offset..offset + |newCode|] == newCode
    {
      hide BaseLength, ArgLength, KnownOp, Length, GoodJumps, Reaiming, Boundary, Edited, Survives, Aim, Fetch, Target, JumpParameter, CanJump;
      ghost var c0 := code;
      ghost var e := Inserting(offset, |newCode|);
      StartAiming(c0, e);
      BoundaryInside(c0, offset);
      // jumps before the insertion point to places past it
      var i := 0;
      while i < offset
        invariant 0 <= i <= offset && |code| == |c0| && Reaiming(c0, code, e, i)
      {
        ReadAhead(c0, code, e, i);
        AheadOf(c0, code, e, i, offset);
        InsertAim(c0, e, i);
        ghost var c, d := code, 0;
        if CanJump(code[i]) {
          JumpOf(code, i);
          var jumpOffset := ObjectToSmallint(code[i + JumpParameter(code[i])]) + JumpAdjustment(code[i]);
          if i + Length(code, i) + jumpOffset > offset {
            OffsetValue(i + JumpParameter(code[i]), |newCode|);
            d := |newCode|;
          }
        }
        AimNext(c0, c, e, i, d, code);
        i := i + Length(code, i);
      }
      // jumps from after the insertion point to places before it
      i := offset;
      while i < |code|
        invariant offset <= i <= |code| && |code| == |c0| && Reaiming(c0, code, e, i)
      {
        ReadAhead(c0, code, e, i);
        InsertAim(c0, e, i);
        ghost var c, d := code, 0;
        if CanJump(code[i]) {
          JumpOf(code, i);
          var jumpOffset := ObjectToSmallint(code[i + JumpParameter(code[i])]) + JumpAdjustment(code[i]);
          if i + Length(code, i) + jumpOffset < offset {
            OffsetValue(i + JumpParameter(code[i]), 0 - |newCode|);
            d := 0 - |newCode|;
          }
        }
        AimNext(c0, c, e, i, d, code);
        i := i + Length(code, i);
      }
      AimingDone(c0, code, e);
      FinishInsert(c0, code, e, newCode, code[..offset] + newCode + code[offset..]);
      code := code[..offset] + newCode + code[offset..];
    }

    method DeleteCode(offset: nat, amount: nat)
      requires Boundary(code, offset) && Boundary(code, |code|) && GoodJumps(code)
      requires amount > 0 && offset + amount <= |code|
      modifies this
      ensures Edited(old(code), Deleting(offset, amount), code)
    {
      hide BaseLength, ArgLength, KnownOp, Length, GoodJumps, Reaiming, Boundary, Edited, Survives, Aim, Fetch, Target, JumpParameter, CanJump;
      ghost var c0 := code;
      ghost var e := Deleting(offset, amount);
      StartAiming(c0, e);
      // jumps before the deleted words to places past their start
      var i := 0;
      while i < offset
        invariant 0 <= i <= offset && |code| == |c0| && Reaiming(c0, code, e, i)
      {
        ReadAhead(c0, code, e, i);
        AheadOf(c0, code, e, i, offset);
        DeleteAim(c0, e, i);
        ghost var c, d := code, 0;
        if CanJump(code[i]) {
          JumpOf(code, i);
          var jumpOffset := ObjectToSmallint(code[i + JumpParameter(code[i])]) + JumpAdjustment(code[i]);
          if i + Length(code, i) + jumpOffset > offset {
            OffsetValue(i + JumpParameter(code[i]), 0 - amount);
            d := 0 - amount;
          }
        }
        AimNext(c0, c, e, i, d, code);
        i := i + Length(code, i);
      }
      // jumps from after the deleted words to places before them
      i := offset;
      while i < |code|
        invariant offset <= i <= |code| && |code| == |c0| && Reaiming(c0, code, e, i)
      {
        ReadAhead(c0, code, e, i);
        DeleteAim(c0, e, i);
        ghost var c, d := code, 0;
        if CanJump(code[i]) {
          JumpOf(code, i);
          var jumpOffset := ObjectToSmallint(code[i + JumpParameter(code[i])]) + JumpAdjustment(code[i]);
          if i + Length(code, i) + jumpOffset <= offset {
            OffsetValue(i + JumpParameter(code[i]), amount);
            d := amount;
          }
        }
        AimNext(c0, c, e, i, d, code);
        i := i + Length(code, i);
      }
      AimingDone(c0, code, e);
      FinishDelete(c0, code, e, code[..offset] + code[offset + amount..]);
      code := code[..offset] + code[offset + amount..];
    }
  }
}

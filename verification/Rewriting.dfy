/** The optimizer's passes over a whole code vector. */
module Rewriting {
  import opened Opcodes
  import opened CodeVectors
  import opened Execution
  import opened EditedCode
  import opened Returns

  // ---------- deleting the variable instructions ----------

  /** Without its variable instructions b is c: at says where every instruction of b, or what follows it, is. */
  ghost predicate StripMap(b: seq<Word>, c: seq<Word>, at: map<int, int>) {
    && 0 in at && at[0] == 0 && |b| in at && at[|b|] == |c|
    && (forall p | Boundary(b, p) :: p in at && Boundary(c, at[p]))
    && forall p | Boundary(b, p) && p < |b| :: StripAt(b, p, c, at)
  }

  ghost predicate StripAt(b: seq<Word>, p: int, c: seq<Word>, at: map<int, int>) {
    && p in at && Fits(b, p) && p + Length(b, p) in at
    && if IsVariableOp(b[p]) then at[p + Length(b, p)] == at[p]
       else at[p + Length(b, p)] == at[p] + Length(b, p) && CopyAt(b, p, c, at[p])
            && (CanJump(b[p]) && Boundary(b, Target(b, p)) && Target(b, p) in at ==> c[at[p]] == b[p] && Target(c, at[p]) == at[Target(b, p)])
  }

  /** The same instruction, apart from where it jumps. */
  ghost predicate CopyAt(b: seq<Word>, p: int, c: seq<Word>, q: int) {
    Fits(b, p) && Boundary(c, q) && Fits(c, q) && Length(c, q) == Length(b, p) && Fetch(c, q).(target := 0) == Fetch(b, p).(target := 0)
  }

  method RemoveRedundantOps(v: CodeVector, heapAllocate: bool) returns (ghost at: map<int, int>)
    requires Sound(v.code) && Closed(v.code)
    modifies v
    ensures heapAllocate ==> v.code == old(v.code)
    ensures Sound(v.code) && Closed(v.code)
    ensures !heapAllocate ==> forall p | Boundary(v.code, p) && p < |v.code| :: !IsVariableOp(v.code[p])
    ensures !heapAllocate ==> StripMap(old(v.code), v.code, at)
    ensures !heapAllocate ==> forall m, ctx :: SameEnds(m, ctx, old(v.code), v.code)
    ensures forall ok | All(old(v.code), ok) :: All(v.code, ok)
    ensures ClearOfReturns(old(v.code)) <==> ClearOfReturns(v.code)
    ensures !heapAllocate ==> (ClearOfReturns(old(v.code)) <==> ReturnsClear(v.code))
  {
    hide BaseLength, ArgLength, KnownOp, Length, ClearOfReturns, ReturnsClear, Stripped, Edited, All, Sound, Closed, Stripping, StripMap;
    at := map[0 := 0];
    if heapAllocate {
      return;
    }
    ghost var c0, r := v.code, 0;
    NothingStripped(c0);
    StartStripping(c0);
    var i := 0;
    while i < |v.code|
      invariant 0 <= i <= |v.code| && Stripped(c0, v.code, i) && Stripping(c0, r, v.code, i, at)
      decreases |v.code| - i
    {
      ghost var c := v.code;
      NextToStrip(c0, c, i);
      if OP_LOAD_VARIABLE == v.code[i] {
        v.DeleteCode(i, 2);
        DropVariableOp(c0, c, i, v.code);
        r, at := StripDropped(c0, r, c, i, at, v.code);
      } else if OP_STORE_VARIABLE == v.code[i] {
        v.DeleteCode(i, 2);
        DropVariableOp(c0, c, i, v.code);
        r, at := StripDropped(c0, r, c, i, at, v.code);
      } else {
        PassOp(c0, c, i);
        r, at := StripPassed(c0, r, c, i, at);
        i := i + Length(v.code, i);
      }
    }
    AllStripped(c0, v.code);
    StripDone(c0, r, v.code, i, at);
  }

  /** Where a jump to t goes when the part of the code up to r has become the part up to i. */
  function Now(at: map<int, int>, r: int, i: int, t: int): int {
    if t > r then t - r + i else if t in at then at[t] else 0
  }

  /** The instruction at p is now at q, and jumps to where it has to. */
  ghost predicate AimedAt(c0: seq<Word>, p: int, c: seq<Word>, q: int, at: map<int, int>, r: int, i: int) {
    CopyAt(c0, p, c, q) && (CanJump(c0[p]) ==> c[q] == c0[p] && Target(c, q) == Now(at, r, i, Target(c0, p)))
  }

  ghost predicate StrippedAt(c0: seq<Word>, p: int, c: seq<Word>, at: map<int, int>, r: int, i: int) {
    && p in at && Fits(c0, p) && p + Length(c0, p) in at
    && if IsVariableOp(c0[p]) then at[p + Length(c0, p)] == at[p]
       else at[p + Length(c0, p)] == at[p] + Length(c0, p) && AimedAt(c0, p, c, at[p], at, r, i)
  }

  /** The part of c0 up to r has become the part of c up to i, and the rest is the same. */
  ghost predicate Stripping(c0: seq<Word>, r: int, c: seq<Word>, i: int, at: map<int, int>) {
    && Boundary(c0, r) && Boundary(c, i) && |c0| - r == |c| - i && 0 in at && at[0] == 0 && r in at && at[r] == i
    && (forall p | Boundary(c0, p) && p <= r :: p in at && Boundary(c, at[p]) && at[p] <= i)
    && (forall p | Boundary(c0, p) && p < r :: StrippedAt(c0, p, c, at, r, i))
    && forall p | Boundary(c0, p) && r <= p < |c0| :: AimedAt(c0, p, c, p - r + i, at, r, i)
  }

  lemma StartStripping(c: seq<Word>)
    requires Sound(c) && Closed(c)
    ensures Stripping(c, 0, c, 0, map[0 := 0])
  {
    hide BaseLength, ArgLength, KnownOp, Length, Fetch;
    assert Tiled(c, 0, 0);
    forall p | Boundary(c, p) ensures 0 <= p <= |c| && (p < |c| ==> AimedAt(c, p, c, p, map[0 := 0], 0, 0)) {
      BoundaryIsTiled(c, p);
      assert p < |c| ==> SoundAt(c, p);
    }
  }

  /** Where jumps go is a boundary. */
  lemma JumpsInside(c: seq<Word>, p: int)
    requires Sound(c) && Closed(c) && Boundary(c, p) && p < |c| && Fits(c, p) && CanJump(c[p])
    ensures Boundary(c, Target(c, p))
  {
    TargetIsBoundary(c, p);
  }

  lemma StripPassed(c0: seq<Word>, r: int, c: seq<Word>, i: int, at: map<int, int>) returns (r': int, at': map<int, int>)
    requires Stripping(c0, r, c, i, at) && 0 <= i < |c| && Fits(c, i) && !IsVariableOp(c[i]) && Sound(c0) && Closed(c0)
    ensures Stripping(c0, r', c, i + Length(c, i), at')
  {
    hide BaseLength, ArgLength, KnownOp, Length, Fetch, Fits, Boundary, StrippedAt, AimedAt, Sound, Closed;
    NextPassed(c0, r, c, i, at);
    r' := r + Length(c, i);
    at' := at[r' := i + Length(c, i)];
    StartOfAt(c0, r, c, i, at);
    forall p | Boundary(c0, p) && p < r' ensures StrippedAt(c0, p, c, at', r', i + Length(c, i)) {
      if p < r {
        PassedBefore(c0, r, c, i, at, at', p);
      } else {
        PassedHere(c0, r, c, i, at, at');
      }
    }
    forall p | Boundary(c0, p) && r' <= p < |c0| ensures AimedAt(c0, p, c, p - r + i, at', r', i + Length(c, i)) {
      PassedAim(c0, r, c, i, at, at', p, p - r + i);
    }
  }

  /** The instruction to be passed is the next of c0. */
  lemma NextPassed(c0: seq<Word>, r: int, c: seq<Word>, i: int, at: map<int, int>)
    requires Stripping(c0, r, c, i, at) && 0 <= i < |c| && Fits(c, i) && !IsVariableOp(c[i])
    ensures 0 <= r < |c0| && i + BaseLength(c[i]) < |c| && Fits(c0, r) && !IsVariableOp(c0[r]) && Length(c0, r) == Length(c, i) >= 1
    ensures Boundary(c0, r + Length(c, i)) && Boundary(c, i + Length(c, i))
    ensures forall p | Boundary(c0, p) && p <= r + Length(c, i) :: p <= r || p == r + Length(c, i)
  {
    hide BaseLength, ArgLength, KnownOp, Length, Fetch, StrippedAt;
    BoundaryIsTiled(c0, r);
    assert AimedAt(c0, r, c, i, at, r, i);
    FetchShows(c0, r);
    FetchShows(c, i);
    InstructionEnds0(c0, r);
    InstructionEnds0(c, i);
    forall p | Boundary(c0, p) && p <= r + Length(c, i) ensures p <= r || p == r + Length(c, i) {
      if r < p {
        InstructionEnds(c0, r, p);
      }
    }
  }

  lemma PassedAim(c0: seq<Word>, r: int, c: seq<Word>, i: int, at: map<int, int>, at': map<int, int>, p: int, q: int)
    requires Sound(c0) && Closed(c0) && Boundary(c0, p) && p < |c0| && Fits(c, i) && AimedAt(c0, p, c, q, at, r, i)
    requires at' == at[r + Length(c, i) := i + Length(c, i)] && Length(c, i) >= 1
    requires forall t | Boundary(c0, t) && t <= r + Length(c, i) :: t <= r || t == r + Length(c, i)
    ensures AimedAt(c0, p, c, q, at', r + Length(c, i), i + Length(c, i))
  {
    hide BaseLength, ArgLength, KnownOp, Length, Fetch, Boundary, Sound, Closed;
    if CanJump(c0[p]) {
      JumpsInside(c0, p);
    }
  }

  lemma PassedBefore(c0: seq<Word>, r: int, c: seq<Word>, i: int, at: map<int, int>, at': map<int, int>, p: int)
    requires Stripping(c0, r, c, i, at) && Fits(c, i) && Sound(c0) && Closed(c0) && Boundary(c0, p) && p < r
    requires at' == at[r + Length(c, i) := i + Length(c, i)] && Length(c, i) >= 1
    requires forall t | Boundary(c0, t) && t <= r + Length(c, i) :: t <= r || t == r + Length(c, i)
    ensures StrippedAt(c0, p, c, at', r + Length(c, i), i + Length(c, i))
  {
    hide BaseLength, ArgLength, KnownOp, Length, Fetch, AimedAt, Sound, Closed;
    assert StrippedAt(c0, p, c, at, r, i);
    InstructionEnds(c0, p, r);
    BoundaryIsTiled(c0, r);
    if !IsVariableOp(c0[p]) {
      PassedAim(c0, r, c, i, at, at', p, at[p]);
    }
  }

  lemma PassedHere(c0: seq<Word>, r: int, c: seq<Word>, i: int, at: map<int, int>, at': map<int, int>)
    requires Stripping(c0, r, c, i, at) && Fits(c, i) && Sound(c0) && Closed(c0) && 0 <= r < |c0| && Fits(c0, r) && !IsVariableOp(c0[r])
    requires at' == at[r + Length(c, i) := i + Length(c, i)] && Length(c0, r) == Length(c, i) >= 1
    requires forall t | Boundary(c0, t) && t <= r + Length(c, i) :: t <= r || t == r + Length(c, i)
    ensures StrippedAt(c0, r, c, at', r + Length(c, i), i + Length(c, i))
  {
    hide BaseLength, ArgLength, KnownOp, Length, Fetch, AimedAt, Sound, Closed, Boundary;
    assert AimedAt(c0, r, c, i, at, r, i);
    PassedAim(c0, r, c, i, at, at', r, i);
  }

  lemma StripDropped(c0: seq<Word>, r: int, c: seq<Word>, i: int, at: map<int, int>, c': seq<Word>) returns (r': int, at': map<int, int>)
    requires Stripping(c0, r, c, i, at) && 0 <= i < |c| && Fits(c, i) && IsVariableOp(c[i]) && Boundary(c, |c|) && Sound(c0) && Closed(c0)
    requires i + 2 <= |c| && Edited(c, Deleting(i, 2), c')
    ensures Stripping(c0, r', c', i, at')
  {
    hide BaseLength, ArgLength, KnownOp, Length, Fetch, Fits, Edited, Boundary, StrippedAt, AimedAt, Sound, Closed;
    NextDropped(c0, r, c, i, at, c');
    r' := r + 2;
    at' := at[r' := i];
    forall p | Boundary(c0, p) && p <= r' ensures p in at' && Boundary(c', at'[p]) && at'[p] <= i {
      if p <= r {
        CutBoundary(c, i, 2, c', at[p]);
      }
    }
    StartOfAt(c0, r, c, i, at);
    forall p | Boundary(c0, p) && p < r' ensures StrippedAt(c0, p, c', at', r', i) {
      if p < r {
        StripBefore(c0, r, c, i, at, c', at', p);
      } else {
        StripHere(c0, r, c', at', i);
      }
    }
    forall p | Boundary(c0, p) && r' <= p < |c0| ensures AimedAt(c0, p, c', p - r' + i, at', r', i) {
      assert AimedAt(c0, p, c, p - r + i, at, r, i);
      CutCopied(c0, r, c, i, at, c', p, p - r + i);
    }
  }

  lemma StartOfAt(c0: seq<Word>, r: int, c: seq<Word>, i: int, at: map<int, int>)
    requires Stripping(c0, r, c, i, at)
    ensures 0 <= r
  {
    BoundaryIsTiled(c0, r);
  }

  /** The instruction to be dropped is the next of c0. */
  lemma NextDropped(c0: seq<Word>, r: int, c: seq<Word>, i: int, at: map<int, int>, c': seq<Word>)
    requires Stripping(c0, r, c, i, at) && 0 <= i < |c| && Fits(c, i) && IsVariableOp(c[i]) && Boundary(c, |c|)
    requires i + 2 <= |c| && Edited(c, Deleting(i, 2), c')
    ensures Cut(c, i, 2, c') && Boundary(c', i) && |c'| == |c| - 2 && 0 <= r < |c0|
    ensures Fits(c0, r) && IsVariableOp(c0[r]) && Length(c0, r) == 2 && Boundary(c0, r + 2)
    ensures forall p | Boundary(c0, p) && p <= r + 2 :: p <= r || p == r + 2
  {
    BoundaryIsTiled(c0, r);
    VariableOpLength(c, i);
    InstructionEnds0(c, i);
    hide BaseLength, ArgLength, KnownOp, Length, Fetch, Edited, StrippedAt;
    assert AimedAt(c0, r, c, i, at, r, i);
    assert Cut(c, i, 2, c');
    FetchShows(c0, r);
    FetchShows(c, i);
    InstructionEnds0(c0, r);
    CutBoundary(c, i, 2, c', i);
    CutLength(c, i, c');
    forall p | Boundary(c0, p) && p <= r + 2 ensures p <= r || p == r + 2 {
      if r < p < r + 2 {
        InstructionEnds(c0, r, p);
      }
    }
  }

  lemma StripHere(c0: seq<Word>, r: int, c': seq<Word>, at: map<int, int>, i: int)
    requires Fits(c0, r) && IsVariableOp(c0[r]) && Length(c0, r) == 2 && r in at && r + 2 in at && at[r + 2] == at[r]
    ensures StrippedAt(c0, r, c', at, r + 2, i)
  {
  }

  lemma StripBefore(c0: seq<Word>, r: int, c: seq<Word>, i: int, at: map<int, int>, c': seq<Word>, at': map<int, int>, p: int)
    requires Stripping(c0, r, c, i, at) && 0 <= i < |c| && Cut(c, i, 2, c') && Boundary(c0, p) && p < r && at' == at[r + 2 := i]
    requires Sound(c0) && Closed(c0) && forall t | Boundary(c0, t) && t <= r + 2 :: t <= r || t == r + 2
    ensures StrippedAt(c0, p, c', at', r + 2, i)
  {
    hide BaseLength, ArgLength, KnownOp, Length, Fetch, Cut, AimedAt, Sound, Closed;
    assert StrippedAt(c0, p, c, at, r, i);
    InstructionEnds(c0, p, r);
    BoundaryIsTiled(c0, r);
    if !IsVariableOp(c0[p]) {
      CopyLength(c0, p, c, at[p], at, r, i);
      CutCopied(c0, r, c, i, at, c', p, at[p]);
    }
  }

  lemma CopyLength(c0: seq<Word>, p: int, c: seq<Word>, q: int, at: map<int, int>, r: int, i: int)
    requires AimedAt(c0, p, c, q, at, r, i)
    ensures 0 <= q && q < q + Length(c0, p) <= |c|
  {
  }

  lemma CutLength(c: seq<Word>, i: nat, c': seq<Word>)
    requires Cut(c, i, 2, c')
    ensures |c'| == |c| - 2
  {
  }

  /** A copy elsewhere than where the code is cut is still there, and its jump is right. */
  lemma CutCopied(c0: seq<Word>, r: int, c: seq<Word>, i: nat, at: map<int, int>, c': seq<Word>, p: int, q: int)
    requires Stripping(c0, r, c, i, at) && AimedAt(c0, p, c, q, at, r, i) && Cut(c, i, 2, c') && (q < i || i + 2 <= q) && q < |c|
    requires Sound(c0) && Closed(c0) && Boundary(c0, p) && p < |c0| && forall t | Boundary(c0, t) && t <= r + 2 :: t <= r || t == r + 2
    ensures AimedAt(c0, p, c', if q < i then q else q - 2, at[r + 2 := i], r + 2, i)
  {
    hide BaseLength, ArgLength, KnownOp, Length, Sound, Closed, StrippedAt;
    CutBoundary(c, i, 2, c', q);
    assert Survives(c, Deleting(i, 2), q);
    var q' := if q < i then q else q - 2;
    FetchShows(c, q);
    FetchShows(c', q');
    if CanJump(c0[p]) {
      JumpsInside(c0, p);
    }
  }

  lemma StripDone(c0: seq<Word>, r: int, c: seq<Word>, i: int, at: map<int, int>)
    requires Stripping(c0, r, c, i, at) && i == |c|
    ensures StripMap(c0, c, at)
  {
    hide BaseLength, ArgLength, KnownOp, Length, Fetch, Fits;
    forall p | Boundary(c0, p) ensures p <= r && (p in at ==> at[p] == Now(at, r, i, p)) {
      BoundaryIsTiled(c0, p);
    }
    forall p | Boundary(c0, p) && p < |c0| ensures StripAt(c0, p, c, at) {
      assert StrippedAt(c0, p, c, at, r, i);
    }
  }

  /** The variable instructions before i have been deleted, and nothing else has changed that matters. */
  ghost predicate Stripped(c0: seq<Word>, c: seq<Word>, i: int) {
    && Boundary(c, i) && Sound(c) && Closed(c) && (forall p | Boundary(c, p) && p < i :: !IsVariableOp(c[p]))
    && (forall m, ctx :: SameEnds(m, ctx, c0, c)) && (forall ok | All(c0, ok) :: All(c, ok))
    && (ClearOfReturns(c0) <==> ClearOfReturns(c))
  }

  lemma NothingStripped(c: seq<Word>)
    requires Sound(c) && Closed(c)
    ensures Stripped(c, c, 0)
  {
    assert Tiled(c, 0, 0);
  }

  lemma NextToStrip(c0: seq<Word>, c: seq<Word>, i: int)
    requires Stripped(c0, c, i) && i < |c|
    ensures 0 <= i && Fits(c, i) && Boundary(c, i) && Boundary(c, |c|) && GoodJumps(c) && 1 <= Length(c, i) && i + Length(c, i) <= |c|
    ensures IsVariableOp(c[i]) ==> Length(c, i) == 2
  {
    hide ClearOfReturns, All, SameEnds;
    assert SoundAt(c, i);
    InstructionEnds(c, i, |c|);
    SoundIsGood(c);
  }

  lemma PassOp(c0: seq<Word>, c: seq<Word>, i: int)
    requires Stripped(c0, c, i) && 0 <= i < |c| && Fits(c, i) && !IsVariableOp(c[i])
    ensures Stripped(c0, c, i + Length(c, i))
  {
    hide BaseLength, ArgLength, KnownOp, Length, ClearOfReturns, All, SameEnds, Sound, Closed;
    InstructionEnds0(c, i);
    forall p | Boundary(c, p) && p < i + Length(c, i) ensures !IsVariableOp(c[p]) {
      if i < p {
        InstructionEnds(c, i, p);
      }
    }
  }

  lemma AllStripped(c0: seq<Word>, c: seq<Word>)
    requires Stripped(c0, c, |c|)
    ensures Sound(c) && Closed(c) && (forall p | Boundary(c, p) && p < |c| :: !IsVariableOp(c[p]))
    ensures (forall m, ctx :: SameEnds(m, ctx, c0, c)) && (forall ok | All(c0, ok) :: All(c, ok))
    ensures (ClearOfReturns(c0) <==> ClearOfReturns(c)) && (ClearOfReturns(c0) <==> ReturnsClear(c))
  {
    hide ClearOfReturns, ReturnsClear, All, SameEnds, Sound, Closed;
    PlainClear(c);
  }

  lemma VariableOpLength(c: seq<Word>, i: int)
    requires Fits(c, i) && IsVariableOp(c[i])
    ensures Length(c, i) == 2
  {
  }

  /** The step of the deleting loop. */
  lemma DropVariableOp(c0: seq<Word>, c: seq<Word>, i: int, c': seq<Word>)
    requires Stripped(c0, c, i) && 0 <= i < |c| && Fits(c, i) && IsVariableOp(c[i])
    requires i + 2 <= |c| && Edited(c, Deleting(i, 2), c')
    ensures |c'| == |c| - 2 && Stripped(c0, c', i)
  {
    hide ClearOfReturns;
    VariableOpLength(c, i);
    InstructionEnds0(c, i);
    hide BaseLength, ArgLength, KnownOp, Length, Fits, Closed, Tiled;
    assert Boundary(c, |c|);
    assert Cut(c, i, 2, c');
    CutSound(c, i, 2, c');
    CutClosed(c, i, 2, c');
    CutBoundary(c, i, 2, c', i);
    CutClear(c, i, c');
    forall p | Boundary(c', p) && p < i
      ensures !IsVariableOp(c'[p])
    {
      hide Sound;
      assert p < |c'|;
      var q := CutInstruction(c, i, 2, c', p);
      FetchShows(c', p);
      FetchShows(c, q);
    }
    forall m, ctx
      ensures SameEnds(m, ctx, c0, c')
    {
      assert SameEnds(m, ctx, c0, c);
      CutSameEnds(m, ctx, c, i, 2, c');
      SameEndsTrans(m, ctx, c0, c, c');
    }
    forall ok | All(c0, ok)
      ensures All(c', ok)
    {
      CutAll(c, i, 2, c', ok);
    }
  }

  lemma SameEndsTrans(m: Machine, ctx: Context, a: seq<Word>, b: seq<Word>, c: seq<Word>)
    requires SameEnds(m, ctx, a, b) && SameEnds(m, ctx, b, c)
    ensures SameEnds(m, ctx, a, c)
  {
    hide Ends;
  }

  // ---------- renumbering the registers ----------

  predicate RegistersWithin(ins: Instr, lo: int, hi: int) {
    forall k | 0 <= k < |ins.args| && IsRegisterOperand(ins.op, k) ::
      IsSmallint(ins.args[k]) && lo <= ObjectToSmallint(ins.args[k]) < hi
  }

  function OffsetInstr(ins: Instr, offset: int): Instr {
    ins.(args := seq(|ins.args|, k requires 0 <= k < |ins.args| =>
      if IsRegisterOperand(ins.op, k) then ins.args[k] + 2 * offset else ins.args[k]))
  }

  /** The same code, instruction by instruction, with every register renumbered. */
  ghost predicate Shifted(c0: seq<Word>, c: seq<Word>, offset: int, end: int) {
    |c| == |c0| && forall p | Boundary(c0, p) && p < end :: ShiftedAt(c0, c, offset, p)
  }

  ghost predicate ShiftedAt(c0: seq<Word>, c: seq<Word>, offset: int, p: int) {
    Fits(c0, p) && Fits(c, p) && Length(c, p) == Length(c0, p) && Fetch(c, p) == OffsetInstr(Fetch(c0, p), offset)
    && (CanJump(c0[p]) ==> c[p + JumpParameter(c0[p])] == c0[p + JumpParameter(c0[p])])
  }

  /** The words of the instruction at i with its first done operands renumbered. */
  ghost predicate PartlyShifted(c0: seq<Word>, c: seq<Word>, i: int, done: int, offset: int)
    requires Fits(c0, i)
  {
    && |c| == |c0| && 0 <= done < Length(c0, i)
    && forall q {:trigger c[q]} | 0 <= q < |c| ::
         c[q] == if i < q <= i + done && IsRegisterOperand(c0[i], q - i - 1) then c0[q] + 2 * offset else c0[q]
  }

  /** The condition, for use with All, that an instruction names only registers from lo up to hi. */
  function Within(lo: int, hi: int): Instr -> bool {
    ins => RegistersWithin(ins, lo, hi)
  }

  method OffsetRegisters(v: CodeVector, offset: int, ghost n: int)
    requires Sound(v.code) && All(v.code, Within(0, n))
    modifies v
    ensures Shifted(old(v.code), v.code, offset, |v.code|)
  {
    hide Shifted, ArgLength, BaseLength, KnownOp, All, PartlyShifted, Operands, RegisterLocations, SoundAt;
    ghost var c0 := v.code;
    ShiftedStart(c0, offset);
    var i := 0;
    while i < |v.code|
      invariant 0 <= i <= |v.code| == |c0| && Boundary(c0, i)
      invariant v.code[i..] == c0[i..] && Shifted(c0, v.code, offset, i)
    {
      ghost var c := v.code;
      AheadUnchanged(c0, c, i);
      OperandsTagged(c0, c, i, n);
      OffsetInstruction(v, i, offset);
      ShiftNext(c0, c, i, v.code, offset);
      i := i + Length(v.code, i);
    }
  }

  /** Renumbers the registers of one instruction: the masked operands, then those it counts. */
  method OffsetInstruction(v: CodeVector, i: nat, offset: int)
    requires Fits(v.code, i)
    requires forall k {:trigger IsRegisterOperand(v.code[i], k)} |
               0 <= k < Length(v.code, i) - 1 && IsRegisterOperand(v.code[i], k) :: IsSmallint(v.code[i + 1 + k])
    modifies v
    ensures |v.code| == |old(v.code)| && PartlyShifted(old(v.code), v.code, i, Length(old(v.code), i) - 1, offset)
  {
    hide ArgLength, Operands, RegisterLocations, KnownOp, Bit;
    ghost var c := v.code;
    MaskedOperands(c[i], 0);
    var offsets := RegisterLocations(v.code[i]);
    var baseLength := BaseLength(v.code[i]);
    var opcodeArgCount := Length(v.code, i) - 1 - baseLength;
    var offsetBit := 0;
    while offsetBit < 6
      invariant 0 <= offsetBit <= 6
      invariant PartlyShifted(c, v.code, i, if offsetBit < baseLength then offsetBit else baseLength, offset)
    {
      hide BaseLength, Length;
      MaskedOperands(c[i], offsetBit);
      MaskIsRegisters(c[i], offsetBit);
      if Bit(offsets, offsetBit) {
        v.OffsetValue(i + 1 + offsetBit, offset);
      }
      offsetBit := offsetBit + 1;
    }
    var offsetArg := i + 1 + baseLength;
    while offsetArg < i + 1 + baseLength + opcodeArgCount
      invariant i + 1 + baseLength <= offsetArg <= i + 1 + baseLength + opcodeArgCount
      invariant PartlyShifted(c, v.code, i, offsetArg - i - 1, offset)
    {
      hide BaseLength;
      assert IsRegisterOperand(c[i], offsetArg - i - 1);
      v.OffsetValue(offsetArg, offset);
      offsetArg := offsetArg + 1;
    }
  }

  lemma ShiftedStart(c0: seq<Word>, offset: int)
    ensures Shifted(c0, c0, offset, 0)
  {
    hide Fits;
    forall p | Boundary(c0, p) && p < 0 ensures false {
    }
  }

  /** What the loop reads at i is what the original code holds there. */
  lemma AheadUnchanged(c0: seq<Word>, c: seq<Word>, i: int)
    requires Boundary(c0, i) && Boundary(c0, |c0|) && i < |c0| && |c| == |c0| && c[i..] == c0[i..]
    ensures Fits(c0, i) && Fits(c, i) && Length(c, i) == Length(c0, i) >= 1 && c[i] == c0[i] && i + Length(c0, i) <= |c0|
  {
    InstructionEnds(c0, i, |c0|);
    assert c[i..i + Length(c0, i)] == c[i..][..Length(c0, i)] == c0[i..][..Length(c0, i)] == c0[i..i + Length(c0, i)];
    SameWords(c0, i, c, i);
    assert c[i] == c[i..][0] == c0[i..][0] == c0[i];
  }

  lemma OperandsTagged(c0: seq<Word>, c: seq<Word>, i: int, n: int)
    requires Sound(c0) && All(c0, Within(0, n)) && Boundary(c0, i) && i < |c0|
    requires |c| == |c0| && c[i..] == c0[i..] && Fits(c0, i) && Fits(c, i) && Length(c, i) == Length(c0, i) && c[i] == c0[i]
    ensures forall k {:trigger IsRegisterOperand(c[i], k)} |
              0 <= k < Length(c, i) - 1 && IsRegisterOperand(c[i], k) :: IsSmallint(c[i + 1 + k])
  {
    hide ArgLength;
    var ins := Fetch(c0, i).(target := 0);
    assert Within(0, n)(ins);
    forall k {:trigger IsRegisterOperand(c[i], k)} | 0 <= k < Length(c, i) - 1 && IsRegisterOperand(c[i], k)
      ensures IsSmallint(c[i + 1 + k])
    {
      MaskedOperands(c0[i], k);
      assert ins.args[k] == c0[i + 1 + k];
      assert c[i + 1 + k] == c[i..][1 + k] == c0[i..][1 + k];
    }
  }

  /** The step of the renumbering loop. */
  lemma ShiftNext(c0: seq<Word>, c: seq<Word>, i: int, c': seq<Word>, offset: int)
    requires Sound(c0) && Boundary(c0, i) && i < |c0| && |c| == |c0| && c[i..] == c0[i..]
    requires Shifted(c0, c, offset, i) && Fits(c0, i) && Fits(c, i) && Length(c, i) == Length(c0, i) && c[i] == c0[i]
    requires PartlyShifted(c, c', i, Length(c0, i) - 1, offset)
    ensures Fits(c', i) && Length(c', i) == Length(c0, i) && Boundary(c0, i + Length(c0, i)) && i + Length(c0, i) <= |c0|
    ensures c'[i + Length(c0, i)..] == c0[i + Length(c0, i)..] && Shifted(c0, c', offset, i + Length(c0, i))
  {
    hide BaseLength, ArgLength, KnownOp, Operands, RegisterLocations, Bit, IsRegisterOperand, OffsetInstr, Fetch, JumpParameter, SoundAt;
    InstructionEnds(c0, i, |c0|);
    ShiftOne(c0, c, i, c', offset);
    var n := Length(c0, i);
    assert c'[i + n..] == c[i + n..] == c[i..][n..] == c0[i..][n..] == c0[i + n..];
    forall p | Boundary(c0, p) && p < i + n
      ensures ShiftedAt(c0, c', offset, p)
    {
      if p < i {
        InstructionEnds(c0, p, i);
        assert ShiftedAt(c0, c, offset, p);
        assert c'[p..p + Length(c0, p)] == c[p..p + Length(c0, p)];
        ShiftKept(c0, c, c', offset, p);
      } else if i < p {
        InstructionEnds(c0, i, p);
      }
    }
  }

  lemma ShiftKept(c0: seq<Word>, c: seq<Word>, c': seq<Word>, offset: int, p: int)
    requires ShiftedAt(c0, c, offset, p) && |c'| == |c|
    requires c'[p..p + Length(c0, p)] == c[p..p + Length(c0, p)]
    ensures ShiftedAt(c0, c', offset, p)
  {
    hide BaseLength, ArgLength, KnownOp, OffsetInstr;
    SameWords(c, p, c', p);
    assert Fetch(c', p) == Fetch(c, p);
    if CanJump(c0[p]) {
      var k := JumpParameter(c0[p]);
      assert c'[p + k] == c'[p..p + Length(c0, p)][k] == c[p..p + Length(c0, p)][k] == c[p + k];
    }
  }

  lemma ShiftOne(c0: seq<Word>, c: seq<Word>, i: int, c': seq<Word>, offset: int)
    requires 0 <= i < |c0| && |c| == |c0| && c[i..] == c0[i..]
    requires Fits(c0, i) && Fits(c, i) && Length(c, i) == Length(c0, i) && c[i] == c0[i]
    requires PartlyShifted(c, c', i, Length(c0, i) - 1, offset)
    ensures Fits(c', i) && Length(c', i) == Length(c0, i) && Fetch(c', i) == OffsetInstr(Fetch(c0, i), offset)
    ensures CanJump(c0[i]) ==> c'[i + JumpParameter(c0[i])] == c0[i + JumpParameter(c0[i])]
  {
    var n := Length(c0, i);
    forall q | i <= q < |c0|
      ensures c'[q] == if i < q < i + n && IsRegisterOperand(c0[i], q - i - 1) then c0[q] + 2 * offset else c0[q]
    {
      assert c[q] == c[i..][q - i] == c0[i..][q - i] == c0[q];
    }
    CountsKept(c0, i, c', offset);
    ShiftedFetch(c0, i, c', offset);
  }

  lemma ShiftedFetch(c0: seq<Word>, i: int, c': seq<Word>, offset: int)
    requires Fits(c0, i) && Fits(c', i) && |c'| == |c0| && Length(c', i) == Length(c0, i)
    requires forall q | i <= q < i + Length(c0, i) ::
               c'[q] == if i < q && IsRegisterOperand(c0[i], q - i - 1) then c0[q] + 2 * offset else c0[q]
    ensures Fetch(c', i) == OffsetInstr(Fetch(c0, i), offset)
    ensures CanJump(c0[i]) ==> c'[i + JumpParameter(c0[i])] == c0[i + JumpParameter(c0[i])]
  {
    hide Operands, RegisterLocations, Bit, KnownOp;
    var n := Length(c0, i);
    assert c'[i] == c0[i];
    if CanJump(c0[i]) {
      var j := JumpParameter(c0[i]) - 1;
      MaskedOperands(c0[i], j);
      assert c'[i + 1 + j] == c0[i + 1 + j];
    }
    hide BaseLength, ArgLength, Length;
    var x, y := Fetch(c', i).args, OffsetInstr(Fetch(c0, i), offset).args;
    assert |x| == |y|;
    assert x == y;
  }

  /** No operand count is a register, so renumbering keeps every length. */
  lemma CountsKept(c0: seq<Word>, i: int, c': seq<Word>, offset: int)
    requires Fits(c0, i) && |c'| == |c0|
    requires forall q | i <= q < i + Length(c0, i) ::
               c'[q] == if i < q && IsRegisterOperand(c0[i], q - i - 1) then c0[q] + 2 * offset else c0[q]
    ensures Fits(c', i) && Length(c', i) == Length(c0, i)
  {
    assert c'[i] == c0[i];
    assert 2 <= BaseLength(c0[i]) && !Bit(RegisterLocations(c0[i]), 1) ==> c'[i + 2] == c0[i + 2];
    assert 3 <= BaseLength(c0[i]) && !Bit(RegisterLocations(c0[i]), 2) ==> c'[i + 3] == c0[i + 3];
    assert 4 <= BaseLength(c0[i]) && !Bit(RegisterLocations(c0[i]), 3) ==> c'[i + 4] == c0[i + 4];
  }
}

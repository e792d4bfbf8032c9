/** The two kinds of guarded code the optimizer puts in front of a send, and what they do there. */
module InlinedCall {
  import opened Wrappers
  import opened Opcodes
  import opened CodeVectors
  import opened Execution
  import opened EditedCode
  import opened Rewriting
  import opened Renumbering
  import opened Definedness
  import opened Returns
  import opened Inlining

  // ---------- the words ----------

  function SendArgs(c: seq<Word>, i: nat): seq<Word>
    requires Fits(c, i) && IsSend(c[i])
  {
    c[i + 4..i + Length(c, i)]
  }

  function PrimitiveGuard(resultReg: int, maps: Word, index: Word, arity: int, jump: int, args: seq<Word>): seq<Word> {
    [OP_INLINE_PRIMITIVE_CHECK, SmallintToObject(resultReg), maps, index, SmallintToObject(arity), SmallintToObject(jump)] + args
  }

  function MethodGuard(maps: Word, arity: int, jump: int, args: seq<Word>): seq<Word> {
    [OP_INLINE_METHOD_CHECK, maps, SmallintToObject(arity), SmallintToObject(jump)] + args
  }

  /** Moves of the arguments into the callee's registers, which start at base. */
  function Prelude(args: seq<Word>, base: int): seq<Word> {
    if args == [] then []
    else Prelude(args[..|args| - 1], base) + [OP_MOVE_REGISTER, SmallintToObject(|args| - 1 + base), args[|args| - 1]]
  }

  lemma PrimitiveGuardShape(resultReg: int, maps: Word, index: Word, jump: int, args: seq<Word>)
    ensures var g := PrimitiveGuard(resultReg, maps, index, |args|, jump, args);
      && |g| == 6 + |args| && Fits(g, 0) && Length(g, 0) == |g| && Boundary(g, |g|)
      && Fetch(g, 0) == Instr(OP_INLINE_PRIMITIVE_CHECK, [SmallintToObject(resultReg), maps, index, SmallintToObject(|args|), 0] + args, |g| + jump)
      && IsSmallint(g[JumpParameter(g[0])])
  {
    var g := PrimitiveGuard(resultReg, maps, index, |args|, jump, args);
    assert Tiled(g, |g|, |g|);
    assert g[1..|g|][4 := 0] == [SmallintToObject(resultReg), maps, index, SmallintToObject(|args|), 0] + args;
  }

  lemma MethodGuardShape(maps: Word, jump: int, args: seq<Word>, body: seq<Word>)
    ensures var g := MethodGuard(maps, |args|, jump, args) + body;
      && |g| == 4 + |args| + |body| && Fits(g, 0) && Length(g, 0) == 4 + |args|
      && Fetch(g, 0) == Instr(OP_INLINE_METHOD_CHECK, [maps, SmallintToObject(|args|), 0] + args, 4 + |args| + jump)
      && IsSmallint(g[JumpParameter(g[0])])
  {
    var g := MethodGuard(maps, |args|, jump, args) + body;
    assert g[1..4 + |args|][2 := 0] == [maps, SmallintToObject(|args|), 0] + args;
  }

  lemma SendShape(c: seq<Word>, i: nat)
    requires Fits(c, i) && IsSend(c[i])
    ensures var ins := Fetch(c, i); |ins.args| == 3 + |SendArgs(c, i)| && ins.args[3..] == SendArgs(c, i) && ins.op == c[i]
    ensures Length(c, i) == 4 + |SendArgs(c, i)| && Fetch(c, i).args[0] == c[i + 1]
  {
  }

  /** The values a send passes are those of its operands after the first three. */
  lemma {:induction false} SendReads(ins: Instr, regs: Registers)
    requires IsSend(ins.op) && 3 <= |ins.args|
    ensures Values(regs, ReadOperands(ins, 0)) == GuardArgs(ins, 3, regs)
    ensures |GuardArgs(ins, 3, regs)| == |ins.args| - 3
  {
    assert !IsRead(ins, 0) && !IsRead(ins, 1) && !IsRead(ins, 2);
    assert ReadOperands(ins, 0) == ReadOperands(ins, 1) == ReadOperands(ins, 2) == ReadOperands(ins, 3);
    ReadsFrom(ins, 3);
  }

  lemma {:induction false} ReadsFrom(ins: Instr, k: nat)
    requires IsSend(ins.op) && 3 <= k <= |ins.args|
    ensures ReadOperands(ins, k) == seq(|ins.args| - k, j requires 0 <= j => Arg(ins, k + j))
    decreases |ins.args| - k
  {
    if k < |ins.args| {
      assert IsRead(ins, k);
      ReadsFrom(ins, k + 1);
      var rest := seq(|ins.args| - k - 1, j requires 0 <= j => Arg(ins, k + 1 + j));
      assert [Arg(ins, k)] + rest == seq(|ins.args| - k, j requires 0 <= j => Arg(ins, k + j));
    }
  }

  lemma SameGuardArgs(a: Instr, first: nat, b: Instr, first': nat, regs: Registers)
    requires first <= |a.args| && first' <= |b.args| && a.args[first..] == b.args[first'..]
    ensures GuardArgs(a, first, regs) == GuardArgs(b, first', regs)
  {
    var x, y := GuardArgs(a, first, regs), GuardArgs(b, first', regs);
    assert |a.args[first..]| == |b.args[first'..]|;
    forall k | 0 <= k < |x|
      ensures x[k] == y[k]
    {
      var j, j' := first + k, first' + k;
      assert a.args[j] == a.args[first..][k] == b.args[first'..][k] == b.args[j'];
      assert Arg(a, j) == Arg(b, j');
      assert x[k] == Get(regs, Arg(a, j)) && y[k] == Get(regs, Arg(b, j'));
    }
  }

  // ---------- primitives ----------

  /** Calling the primitive on arguments with these maps is what the send does on them. */
  ghost predicate PrimitiveImplements(m: Machine, key: seq<Word>, maps: Word, index: Word) {
    forall args, world | MapsMatch(m, m.elements(maps), args, world) ::
      m.effect(0, key, args, world) == m.effect(0, PrimitiveKey(index), args, world)
  }

  lemma PrimitiveBlockBehaves(m: Machine, ctx: Context, c0: seq<Word>, i: nat, maps: Word, index: Word, block: seq<Word>, c: seq<Word>,
                              n: int, regs: Registers, world: World)
    requires Fits(c0, i) && IsSend(c0[i]) && IsSmallint(c0[i + 1])
    requires block == PrimitiveGuard(ObjectToSmallint(c0[i + 1]), maps, index, |SendArgs(c0, i)|, Length(c0, i), SendArgs(c0, i))
    requires Spliced(c0, i, block, c) && PrimitiveImplements(m, Key(Fetch(c0, i)), maps, index)
    ensures BlockBehaves(m, ctx, c, i, |block|, Fetch(c0, i), n, regs, world)
  {
    hide Step, StepAt, Key, Fetch, BaseLength, ArgLength, KnownOp, Length, Fits, Spliced, EffectOf, MapsMatch, Delivers, Ends, PassesOn, SendArgs,
      PrimitiveGuard;
    var given := PrimitiveGuardRuns(m, ctx, c0, i, maps, index, block, c, regs, world);
    if MapsMatch(m, m.elements(maps), given, world) {
      GuardAnswers(m, ctx, c, State(i, regs, world), i + |block| + 1 + |Fetch(c0, i).args|, n, Arg(Fetch(c0, i), 0),
                   m.effect(0, PrimitiveKey(index), given, world));
    } else {
      StepPasses(m, ctx, c, i, i + |block|, n, regs, world);
    }
  }

  /** A guard that fails goes on with what comes after its code. */
  lemma StepPasses(m: Machine, ctx: Context, c: seq<Word>, i: int, after: int, n: int, regs: Registers, world: World)
    requires StepAt(m, ctx, c, State(i, regs, world)) == Goto(State(after, regs, world))
    ensures PassesOn(m, ctx, c, State(i, regs, world), after, n)
  {
    hide StepAt;
    var s, e := State(i, regs, world), State(after, regs, world);
    assert Leads(m, ctx, c, e, 0, e);
    assert LeadsTo(m, ctx, c, s, 1, after, regs, world) && Agree(regs, regs, n);
  }

  /** A primitive guard that passes ends as the primitive answers. */
  lemma GuardAnswers(m: Machine, ctx: Context, c: seq<Word>, s: State, after: int, n: int, result: int, a: Answer)
    requires StepAt(m, ctx, c, s) == AnswerStep(a, after, result, s.regs)
    ensures match a
      case Returned(v, w) => Delivers(m, ctx, c, s, after, n, result, v, w)
      case Signalled(v, w) => Ends(m, ctx, c, s, Signal(v, w))
      case Never => forall o :: !Ends(m, ctx, c, s, o)
  {
    hide StepAt;
    match a
    case Returned(v, w) =>
      var r := s.regs[result := v];
      assert Leads(m, ctx, c, State(after, r, w), 0, State(after, r, w));
      assert LeadsTo(m, ctx, c, s, 1, after, r, w) && ResultSet(s.regs, r, n, result, v);
    case Signalled(v, w) =>
      assert Run(m, ctx, c, s, 1) == Some(Signal(v, w));
    case Never =>
  }

  function AnswerStep(a: Answer, after: int, result: int, regs: Registers): StepResult {
    match a
    case Returned(v, w) => Goto(State(after, regs[result := v], w))
    case Signalled(v, w) => Done(Signal(v, w))
    case Never => Stuck
  }

  /** What a primitive guard in front of a send does, and what the send would do. */
  lemma PrimitiveGuardRuns(m: Machine, ctx: Context, c0: seq<Word>, i: nat, maps: Word, index: Word, block: seq<Word>, c: seq<Word>,
                           regs: Registers, world: World) returns (given: seq<Value>)
    requires Fits(c0, i) && IsSend(c0[i]) && IsSmallint(c0[i + 1])
    requires block == PrimitiveGuard(ObjectToSmallint(c0[i + 1]), maps, index, |SendArgs(c0, i)|, Length(c0, i), SendArgs(c0, i))
    requires Spliced(c0, i, block, c)
    ensures EffectOf(m, ctx, Fetch(c0, i), regs, world) == m.effect(0, Key(Fetch(c0, i)), given, world)
    ensures StepAt(m, ctx, c, State(i, regs, world)) ==
      if MapsMatch(m, m.elements(maps), given, world)
      then AnswerStep(m.effect(0, PrimitiveKey(index), given, world), i + |block| + 1 + |Fetch(c0, i).args|, Arg(Fetch(c0, i), 0), regs)
      else Goto(State(i + |block|, regs, world))
  {
    var args, send := SendArgs(c0, i), Fetch(c0, i);
    PrimitiveGuardShape(ObjectToSmallint(c0[i + 1]), maps, index, Length(c0, i), args);
    InsertedInstruction(c0, i, block, c, 0);
    FetchShows(c, i);
    SendShape(c0, i);
    SendReads(send, regs);
    var guard := Fetch(c, i);
    assert guard.args[5..] == args;
    SameGuardArgs(guard, 5, send, 3, regs);
    given := GuardArgs(guard, 5, regs);
    assert Arg(guard, 0) == Arg(send, 0);
    assert EffectOf(m, ctx, send, regs, world) == m.effect(0, Key(send), given, world) by {
      assert !AsksForContext(send.op);
    }
    GuardStep(m, ctx, c, i, guard, given, regs, world);
  }

  lemma GuardStep(m: Machine, ctx: Context, c: seq<Word>, i: nat, guard: Instr, given: seq<Value>, regs: Registers, world: World)
    requires Fits(c, i) && guard == Fetch(c, i) && guard.op == OP_INLINE_PRIMITIVE_CHECK && given == GuardArgs(guard, 5, regs)
    requires 3 <= |guard.args|
    ensures StepAt(m, ctx, c, State(i, regs, world)) ==
      if MapsMatch(m, m.elements(guard.args[1]), given, world)
      then match m.effect(0, PrimitiveKey(guard.args[2]), given, world)
        case Returned(v, w) => Goto(State(guard.target, regs[Arg(guard, 0) := v], w))
        case Signalled(v, w) => Done(Signal(v, w))
        case Never => Stuck
      else Goto(State(i + Length(c, i), regs, world))
  {
  }

  // ---------- renumbered code keeps its layout ----------

  lemma {:induction false} ShiftedTiles(c0: seq<Word>, c: seq<Word>, offset: int, a: int, b: int)
    requires Sound(c0) && Shifted(c0, c, offset, |c0|) && Boundary(c0, a)
    ensures Tiled(c0, a, b) <==> Tiled(c, a, b)
    decreases b - a
  {
    hide BaseLength, ArgLength, KnownOp;
    if 0 <= a < b <= |c0| {
      assert SoundAt(c0, a) && ShiftedAt(c0, c, offset, a);
      InstructionEnds0(c0, a);
      ShiftedTiles(c0, c, offset, a + Length(c0, a), b);
    }
  }

  /** Renumbering the registers by offset keeps the code sound and closed and moves its registers up. */
  lemma ShiftedSound(c0: seq<Word>, c: seq<Word>, offset: int, n: int)
    requires Sound(c0) && Closed(c0) && Shifted(c0, c, offset, |c0|) && All(c0, Within(0, n))
    ensures Sound(c) && Closed(c) && All(c, Within(offset, offset + n))
    ensures forall p :: Boundary(c, p) <==> Boundary(c0, p)
  {
    hide BaseLength, ArgLength, KnownOp, Length, RegistersWithin, IsRegisterOperand;
    forall p ensures Boundary(c, p) <==> Boundary(c0, p) { ShiftedTiles(c0, c, offset, 0, p); }
    forall p | Boundary(c, p) && p < |c|
      ensures SoundAt(c, p) && ClosedAt(c, p) && Fits(c, p) && Within(offset, offset + n)(Fetch(c, p).(target := 0))
    {
      hide Sound, Closed;
      ShiftedOne(c0, c, offset, n, p);
    }
  }

  lemma ShiftedOne(c0: seq<Word>, c: seq<Word>, offset: int, n: int, p: int)
    requires Sound(c0) && Closed(c0) && Shifted(c0, c, offset, |c0|) && All(c0, Within(0, n))
    requires forall q :: Boundary(c, q) <==> Boundary(c0, q)
    requires Boundary(c0, p) && p < |c0|
    ensures SoundAt(c, p) && ClosedAt(c, p) && Fits(c, p) && Within(offset, offset + n)(Fetch(c, p).(target := 0))
  {
    hide BaseLength, ArgLength, KnownOp, Length, CanJump, FallsThrough, Tiled, Boundary, OffsetInstr, RegistersWithin;
    assert SoundAt(c0, p) && ClosedAt(c0, p) && ShiftedAt(c0, c, offset, p);
    hide Sound, Closed, Fetch;
    FetchShows(c0, p);
    FetchShows(c, p);
    assert Within(0, n)(Fetch(c0, p).(target := 0));
    hide All;
    OffsetWithin(Fetch(c0, p), offset, n);
  }

  lemma OffsetWithin(ins: Instr, offset: int, n: int)
    requires RegistersWithin(ins.(target := 0), 0, n)
    ensures RegistersWithin(OffsetInstr(ins, offset).(target := 0), offset, offset + n)
    ensures OffsetInstr(ins, offset).op == ins.op && OffsetInstr(ins, offset).target == ins.target
  {
    hide IsRegisterOperand;
  }

  /** A condition on instructions that does not look at register numbers survives renumbering. */
  lemma ShiftedAll(c0: seq<Word>, c: seq<Word>, offset: int, ok: Instr -> bool)
    requires Sound(c0) && Shifted(c0, c, offset, |c0|) && All(c0, ok)
    requires forall a: Instr, b: Instr | ok(a) && a.op == b.op :: ok(b)
    ensures All(c, ok)
  {
    hide BaseLength, ArgLength, KnownOp, Length, IsRegisterOperand, OffsetInstr;
    forall p | Boundary(c, p) && p < |c|
      ensures Fits(c, p) && ok(Fetch(c, p).(target := 0))
    {
      ShiftedTiles(c0, c, offset, 0, p);
      assert ShiftedAt(c0, c, offset, p);
      FetchShows(c0, p);
      SameOp(Fetch(c0, p), offset);
      assert ok(Fetch(c0, p).(target := 0));
    }
  }

  lemma SameOp(ins: Instr, offset: int)
    ensures OffsetInstr(ins, offset).op == ins.op
  {
  }

  // ---------- the callee's body in place ----------

  /** The instructions the inliner accepts in a callee: none that returns further than to the caller. */
  function Inlinable(): Instr -> bool {
    (ins: Instr) => ins.op != OP_RETURN_FROM && ins.op != OP_RESUME && ins.op != OP_RESEND_MESSAGE && ins.op != OP_BRANCH_KEYED
      && ins.op != OP_LOAD_FREE_VARIABLE && ins.op != OP_STORE_FREE_VARIABLE
  }

  /** How the callee's code b2, with its registers already renumbered, gets into the code c at position `at`. */
  ghost predicate BodyAt(b2: seq<Word>, prelude: seq<Word>, b3: seq<Word>, b4: seq<Word>, resultReg: int, out: nat, at: int, c: seq<Word>) {
    && Sound(b2) && Closed(b2) && Sound(b3) && Closed(b3) && All(b2, Inlinable())
    && Boundary(prelude, |prelude|) && Spliced(b2, 0, prelude, b3)
    && ReturnsClear(b3) && ReplacedSoFar(b3, |b3|, b4, resultReg, out)
    && 0 <= at && at + |b4| <= |c| && c[at..at + |b4|] == b4
  }

  /** Where the callee's instruction p is in the caller. */
  function BodyPos(prelude: seq<Word>, b3: seq<Word>, at: int, p: int): int {
    at + Pos(b3, p + |prelude|)
  }

  /** An instruction of the callee that does not return is in the caller as it was, aimed at the same instruction. */
  lemma BodyInstruction(b2: seq<Word>, prelude: seq<Word>, b3: seq<Word>, b4: seq<Word>, resultReg: int, out: nat, at: int, c: seq<Word>, p: int)
    requires BodyAt(b2, prelude, b3, b4, resultReg, out, at, c) && Boundary(b2, p) && p < |b2|
    ensures SoundAt(b2, p) && ClosedAt(b2, p)
    ensures !IsReturn(b2[p]) ==>
      (var q := BodyPos(prelude, b3, at, p);
       && Carried(b2, p, c, q, BodyPos(prelude, b3, at, Fetch(b2, p).target))
       && BodyPos(prelude, b3, at, p + Length(b2, p)) == q + Length(b2, p))
    ensures IsReturn(b2[p]) ==>
      (var q := BodyPos(prelude, b3, at, p);
       && p + 1 < |b2| && at <= q && q + 5 <= at + |b4| && ExitAt(b4, q - at, b2[p], b2[p + 1], resultReg, out))
  {
    hide BaseLength, ArgLength, KnownOp, Length, Fetch, Pos, PosSoFar, CountReturns, ExitAt, CanJump, JumpParameter, ReplacedSoFar, ReturnsClear, All;
    var q3 := p + |prelude|;
    PreludeMoves(b2, prelude, b3, p);
    var t3 := Fetch(b3, q3).target;
    hide Sound, Closed, Spliced;
    if IsReturn(b2[p]) {
      BodyReturn(b3, b4, resultReg, out, q3);
      ReturnOperand(b2, p, b3, q3);
    } else {
      BodyMoves(b3, b4, resultReg, out, q3);
      var q4, n := Pos(b3, q3), Length(b2, p);
      CarriedTrans(b2, p, b3, q3, t3, b4, q4, Fetch(b4, q4).target);
      FitsInside(b4, q4);
      SubSlice(c, at, b4, q4, n);
      CarriedSlice(b2, p, b4, q4, Fetch(b4, q4).target, c, at + q4);
      if CanJump(b2[p]) {
        JumpCarried(b2, p, c, at + q4, Fetch(b4, q4).target + at, BodyPos(prelude, b3, at, Fetch(b2, p).target));
      } else {
        StillCarried(b2, p, c, at + q4, Fetch(b4, q4).target + at, BodyPos(prelude, b3, at, Fetch(b2, p).target));
      }
    }
  }

  /** Behind the prelude every instruction of the callee stands where it stood, moved by the size of the prelude. */
  lemma PreludeMoves(b2: seq<Word>, prelude: seq<Word>, b3: seq<Word>, p: int)
    requires Sound(b2) && Closed(b2) && Boundary(prelude, |prelude|) && Spliced(b2, 0, prelude, b3) && Boundary(b2, p) && p < |b2|
    ensures SoundAt(b2, p) && ClosedAt(b2, p)
    ensures var q := p + |prelude|;
      && Boundary(b3, q) && q < |b3| && Fits(b3, q) && b3[q] == b2[p] && Length(b3, q) == Length(b2, p)
      && Carried(b2, p, b3, q, Fetch(b3, q).target) && Fetch(b3, q).op == Fetch(b2, p).op && Fetch(b3, q).args == Fetch(b2, p).args
      && (CanJump(b2[p]) ==> Fetch(b3, q).target == Fetch(b2, p).target + |prelude|)
  {
    hide BaseLength, ArgLength, KnownOp, Length, Fetch, CanJump, JumpParameter;
    assert SoundAt(b2, p) && ClosedAt(b2, p);
    assert Survives(b2, Inserting(0, |prelude|), p);
    InsertBoundary(b2, 0, prelude, b3, p);
    FetchShows(b2, p);
    FetchShows(b3, p + |prelude|);
    if CanJump(b2[p]) {
      TargetIsBoundary(b2, p);
    } else {
      StillCarried(b2, p, b3, p + |prelude|, Inserting(0, |prelude|).MovedTarget(p, Fetch(b2, p).target), Fetch(b3, p + |prelude|).target);
    }
  }

  lemma BodyReturn(b3: seq<Word>, b4: seq<Word>, resultReg: int, out: nat, q: int)
    requires ReplacedSoFar(b3, |b3|, b4, resultReg, out) && Boundary(b3, q) && q < |b3| && Fits(b3, q) && IsReturn(b3[q])
    ensures q + 1 < |b3| && 0 <= Pos(b3, q) && Pos(b3, q) + 5 <= |b4|
    ensures ExitAt(b4, Pos(b3, q), b3[q], b3[q + 1], resultReg, out)
  {
    hide BaseLength, ArgLength, KnownOp, Length, Fetch, Pos, CountReturns, Sound;
    assert ReplacedAt(b3, |b3|, b4, resultReg, out, q);
    ReturnLength(b3, q);
    FitsInside(b3, q);
    ExitShape(b4, Pos(b3, q), b3[q], b3[q + 1], resultReg, out);
  }

  lemma BodyMoves(b3: seq<Word>, b4: seq<Word>, resultReg: int, out: nat, q: int)
    requires Sound(b3) && Closed(b3) && ReturnsClear(b3)
    requires ReplacedSoFar(b3, |b3|, b4, resultReg, out) && Boundary(b3, q) && q < |b3| && Fits(b3, q) && !IsReturn(b3[q])
    ensures Fits(b4, Pos(b3, q)) && Carried(b3, q, b4, Pos(b3, q), Fetch(b4, Pos(b3, q)).target)
    ensures CanJump(b3[q]) ==> Fetch(b4, Pos(b3, q)).target == Pos(b3, Fetch(b3, q).target)
    ensures Pos(b3, q + Length(b3, q)) == Pos(b3, q) + Length(b3, q)
  {
    hide BaseLength, ArgLength, KnownOp, Length, Fetch, Pos, CountReturns, JumpParameter, CanJump;
    assert ReplacedAt(b3, |b3|, b4, resultReg, out, q);
    PosNext(b3, q);
    LastPos(b3, q);
    if CanJump(b3[q]) {
      FetchShows(b3, q);
      TargetIsBoundary(b3, q);
      LastPos(b3, Target(b3, q));
    }
  }

  lemma ReturnOperand(b2: seq<Word>, p: int, b3: seq<Word>, q: int)
    requires Fits(b2, p) && IsReturn(b2[p]) && Fits(b3, q) && Fetch(b3, q).op == Fetch(b2, p).op && Fetch(b3, q).args == Fetch(b2, p).args
    ensures p + 1 < |b2| && q + 1 < |b3| && b3[q + 1] == b2[p + 1]
  {
    assert Fetch(b3, q).args[0] == Fetch(b2, p).args[0];
  }

  // ---------- running the body in place ----------

  /** A step writes no register outside the range its instruction names. */
  lemma StepKeepsBelow(m: Machine, ctx: Context, ins: Instr, next: int, regs: Registers, world: World, lo: int, hi: int)
    requires KnownOp(ins.op) && BaseLength(ins.op) <= |ins.args| && RegistersWithin(ins, lo, hi)
    ensures match Step(m, ctx, ins, next, regs, world)
            case Goto(t) => KeptBelow(regs, t.regs, lo)
            case _ => true
  {
    if DestOperand(ins.op) >= 0 {
      DestIsRegister(ins.op);
      assert lo <= Arg(ins, DestOperand(ins.op));
    }
    hide Operands, RegisterLocations, Bit, BaseLength, IsRegisterOperand, RegistersWithin;
    if Plain(ins.op) {
      PlainWrites(m, ctx, ins, next, regs, world);
    }
  }

  lemma PlainWrites(m: Machine, ctx: Context, ins: Instr, next: int, regs: Registers, world: World)
    requires Plain(ins.op)
    ensures match Step(m, ctx, ins, next, regs, world)
            case Goto(t) => t.regs == regs || (DestOperand(ins.op) == 0 && t.regs == regs[Arg(ins, 0) := Get(t.regs, Arg(ins, 0))])
            case _ => true
  {
  }

  /** What the body's run comes to, seen by the caller whose registers lie below base. */
  ghost predicate BodyEnds(m: Machine, ctx: Context, c: seq<Word>, s: State, after: int, base: int, result: int, o: Outcome) {
    match o
    case Return(v, w) => Delivers(m, ctx, c, s, after, base, result, v, w)
    case Signal(v, w) => Ends(m, ctx, c, s, o)
    case _ => false
  }

  /** One step of the callee, in place. */
  lemma BodyStep(m: Machine, ctx: Context, b2: seq<Word>, prelude: seq<Word>, b3: seq<Word>, b4: seq<Word>, resultReg: int, out: nat,
                 at: int, c: seq<Word>, base: int, top: int, s: State)
    requires BodyAt(b2, prelude, b3, b4, resultReg, out, at, c) && All(b2, Within(base, top)) && All(b2, ContextFree())
    requires Boundary(b2, s.pc) && s.pc < |b2| && 0 <= resultReg < base
    ensures var s' := s.(pc := BodyPos(prelude, b3, at, s.pc));
      match StepAt(m, ctx, b2, s)
      case Goto(t) => StepAt(m, ctx, c, s') == Goto(t.(pc := BodyPos(prelude, b3, at, t.pc)))
        && Boundary(b2, t.pc) && t.pc < |b2| && KeptBelow(s.regs, t.regs, base)
      case Done(o) => BodyEnds(m, ctx, c, s', at + |b4| + out, base, resultReg, o)
      case Stuck => StepAt(m, ctx, c, s') == Stuck
  {
    hide BaseLength, ArgLength, KnownOp, Length, Fetch, Pos, CountReturns, ExitAt, CanJump, JumpParameter, All, Step, StepAt, BodyPos, Boundary, Tiled;
    var p, q := s.pc, BodyPos(prelude, b3, at, s.pc);
    BodyInstruction(b2, prelude, b3, b4, resultReg, out, at, c, p);
    BodyOps(b2, p, base, top);
    if IsReturn(b2[p]) {
      ExitRuns(m, ctx, b2, p, b4, resultReg, out, at, c, q, s.regs, s.world, base);
    } else {
      BodyPlainStep(m, ctx, b2, at, c, base, top, s, q, BodyPos(prelude, b3, at, Fetch(b2, p).target));
      StepStays(m, ctx, b2, s);
      var r := StepAt(m, ctx, c, s.(pc := q));
      assert r.Done? ==> Run(m, ctx, c, s.(pc := q), 1) == Some(r.outcome);
    }
  }

  lemma BodyOps(b2: seq<Word>, p: int, base: int, top: int)
    requires All(b2, Within(base, top)) && All(b2, ContextFree()) && All(b2, Inlinable()) && Boundary(b2, p) && p < |b2|
    ensures Fits(b2, p) && KnownOp(b2[p]) && BaseLength(b2[p]) <= |Fetch(b2, p).args| && Fetch(b2, p).op == b2[p]
    ensures RegistersWithin(Fetch(b2, p), base, top) && Inlinable()(Fetch(b2, p)) && ContextFree()(Fetch(b2, p))
  {
    hide IsRegisterOperand, BaseLength;
    var ins := Fetch(b2, p).(target := 0);
    assert Within(base, top)(ins) && Inlinable()(ins) && ContextFree()(ins);
  }

  lemma BodyPlainStep(m: Machine, ctx: Context, b2: seq<Word>, at: int, c: seq<Word>, base: int, top: int, s: State, q: int, target': int)
    requires Fits(b2, s.pc) && KnownOp(b2[s.pc]) && BaseLength(b2[s.pc]) <= |Fetch(b2, s.pc).args| && Fetch(b2, s.pc).op == b2[s.pc]
    requires RegistersWithin(Fetch(b2, s.pc), base, top) && Inlinable()(Fetch(b2, s.pc)) && !IsReturn(b2[s.pc])
    requires Carried(b2, s.pc, c, q, target')
    ensures match StepAt(m, ctx, b2, s)
      case Goto(t) => KeptBelow(s.regs, t.regs, base) && StepAt(m, ctx, c, s.(pc := q)).Goto?
        && ((StepAt(m, ctx, c, s.(pc := q)) == Goto(t.(pc := target')) && t.pc == Fetch(b2, s.pc).target)
            || (StepAt(m, ctx, c, s.(pc := q)) == Goto(t.(pc := q + Length(b2, s.pc))) && t.pc == s.pc + Length(b2, s.pc)))
      case Done(o) => o.Signal? && StepAt(m, ctx, c, s.(pc := q)) == Done(o)
      case Stuck => StepAt(m, ctx, c, s.(pc := q)) == Stuck
  {
    hide BaseLength, ArgLength, KnownOp, Length, Fetch, CanJump, JumpParameter, Step, RegistersWithin;
    var ins := Fetch(b2, s.pc);
    var next := s.pc + Length(b2, s.pc);
    StepKeepsBelow(m, ctx, ins, next, s.regs, s.world, base, top);
    StepMoves(m, ctx, ins, next, target', q + Length(b2, s.pc), s.regs, s.world);
    OnlySignals(m, ctx, ins, next, s.regs, s.world);
  }

  lemma OnlySignals(m: Machine, ctx: Context, ins: Instr, next: int, regs: Registers, world: World)
    requires Inlinable()(ins) && !IsReturn(ins.op)
    ensures Step(m, ctx, ins, next, regs, world).Done? ==> Step(m, ctx, ins, next, regs, world).outcome.Signal?
  {
  }

  /** A rewritten return puts the value in the caller's register and leaves the body. */
  lemma ExitRuns(m: Machine, ctx: Context, b2: seq<Word>, p: int, b4: seq<Word>, resultReg: int, out: nat, at: int, c: seq<Word>, q: int,
                 regs: Registers, world: World, base: int)
    requires Fits(b2, p) && IsReturn(b2[p]) && p + 1 < |b2| && 0 <= at && at + |b4| <= |c| && c[at..at + |b4|] == b4
    requires at <= q && q + 5 <= at + |b4| && ExitAt(b4, q - at, b2[p], b2[p + 1], resultReg, out) && 0 <= resultReg < base
    ensures StepAt(m, ctx, b2, State(p, regs, world)).Done?
    ensures BodyEnds(m, ctx, c, State(q, regs, world), at + |b4| + out, base, resultReg, StepAt(m, ctx, b2, State(p, regs, world)).outcome)
  {
    hide BaseLength, ArgLength, KnownOp, Length, Fetch, StepAt;
    SubSlice(c, at, b4, q - at, 3);
    SubSlice(c, at, b4, q - at + 3, 2);
    SameWords(b4, q - at, c, q);
    SameWords(b4, q - at + 3, c, q + 3);
    var v := if b2[p] == OP_RETURN_REGISTER then Get(regs, ObjectToSmallint(b2[p + 1])) else b2[p + 1];
    var s, s1 := State(q, regs, world), State(q + 3, regs[resultReg := v], world);
    var after := at + |b4| + out;
    ReturnStep(m, ctx, b2, p, regs, world);
    ExitStep(m, ctx, c, q, b2[p], b2[p + 1], resultReg, regs, world);
    OutStep(m, ctx, c, q + 3, after, regs[resultReg := v], world);
    var s2 := State(after, regs[resultReg := v], world);
    assert Leads(m, ctx, c, s2, 0, s2);
    assert Leads(m, ctx, c, s1, 1, s2);
    assert LeadsTo(m, ctx, c, s, 2, after, regs[resultReg := v], world) && ResultSet(regs, regs[resultReg := v], base, resultReg, v);
  }

  lemma ReturnStep(m: Machine, ctx: Context, b2: seq<Word>, p: int, regs: Registers, world: World)
    requires Fits(b2, p) && IsReturn(b2[p]) && p + 1 < |b2|
    ensures var v := if b2[p] == OP_RETURN_REGISTER then Get(regs, ObjectToSmallint(b2[p + 1])) else b2[p + 1];
      StepAt(m, ctx, b2, State(p, regs, world)) == Done(Return(v, world))
  {
    assert Fetch(b2, p).args == [b2[p + 1]];
  }

  lemma ExitStep(m: Machine, ctx: Context, c: seq<Word>, q: int, ret: Word, operand: Word, resultReg: int, regs: Registers, world: World)
    requires Fits(c, q) && IsReturn(ret) && Length(c, q) == 3
    requires Fetch(c, q) == Instr(if ret == OP_RETURN_REGISTER then OP_MOVE_REGISTER else OP_LOAD_LITERAL,
                                  [SmallintToObject(resultReg), operand], 0)
    ensures var v := if ret == OP_RETURN_REGISTER then Get(regs, ObjectToSmallint(operand)) else operand;
      StepAt(m, ctx, c, State(q, regs, world)) == Goto(State(q + 3, regs[resultReg := v], world))
  {
    hide BaseLength, ArgLength, KnownOp, Length, Fetch;
  }

  lemma OutStep(m: Machine, ctx: Context, c: seq<Word>, q: int, after: int, regs: Registers, world: World)
    requires Fits(c, q) && Fetch(c, q) == Instr(OP_JUMP_TO, [0], after)
    ensures StepAt(m, ctx, c, State(q, regs, world)) == Goto(State(after, regs, world))
  {
    hide BaseLength, ArgLength, KnownOp, Length, Fetch;
  }

  /** The callee's whole run, in place: if it ends, so does the body, in the way the caller expects. */
  lemma {:induction false} BodyForward(m: Machine, ctx: Context, b2: seq<Word>, prelude: seq<Word>, b3: seq<Word>, b4: seq<Word>, resultReg: int, out: nat,
                                       at: int, c: seq<Word>, base: int, top: int, s: State, k: nat)
    requires BodyAt(b2, prelude, b3, b4, resultReg, out, at, c) && All(b2, Within(base, top)) && All(b2, ContextFree())
    requires Boundary(b2, s.pc) && s.pc < |b2| && 0 <= resultReg < base && Run(m, ctx, b2, s, k).Some?
    ensures BodyEnds(m, ctx, c, s.(pc := BodyPos(prelude, b3, at, s.pc)), at + |b4| + out, base, resultReg, Run(m, ctx, b2, s, k).value)
    decreases k
  {
    hide StepAt, BodyAt, All, BodyPos, Boundary, Delivers;
    BodyStep(m, ctx, b2, prelude, b3, b4, resultReg, out, at, c, base, top, s);
    match StepAt(m, ctx, b2, s)
    case Goto(t) =>
      BodyForward(m, ctx, b2, prelude, b3, b4, resultReg, out, at, c, base, top, t, k - 1);
      var s', t' := s.(pc := BodyPos(prelude, b3, at, s.pc)), t.(pc := BodyPos(prelude, b3, at, t.pc));
      assert Leads(m, ctx, c, t', 0, t');
      assert Leads(m, ctx, c, s', 1, t');
      match Run(m, ctx, b2, s, k).value {
        case Return(v, w) => DeliversLater(m, ctx, c, s', 1, t', at + |b4| + out, base, resultReg, v, w);
        case Signal(v, w) => LeadsEnds(m, ctx, c, s', 1, t', Signal(v, w));
        case _ =>
      }
    case _ =>
  }

  lemma DeliversLater(m: Machine, ctx: Context, c: seq<Word>, s: State, k: nat, t: State, after: int, base: int, result: int, v: Value, w: World)
    requires Leads(m, ctx, c, s, k, t) && KeptBelow(s.regs, t.regs, base) && Delivers(m, ctx, c, t, after, base, result, v, w)
    ensures Delivers(m, ctx, c, s, after, base, result, v, w)
  {
    hide Leads;
    var j: nat, r :| LeadsTo(m, ctx, c, t, j, after, r, w) && ResultSet(t.regs, r, base, result, v);
    LeadsTrans(m, ctx, c, s, k, t, j, State(after, r, w));
    assert LeadsTo(m, ctx, c, s, k + j, after, r, w);
    forall x | 0 <= x < base ensures Get(s.regs[result := v], x) == Get(r, x) {
      assert Get(t.regs, x) == Get(s.regs, x) && Get(t.regs[result := v], x) == Get(r, x);
    }
  }

  /** If the body ends without the caller going on, or goes on, the callee's own run ends too. */
  lemma {:induction false} BodyBackward(m: Machine, ctx: Context, b2: seq<Word>, prelude: seq<Word>, b3: seq<Word>, b4: seq<Word>, resultReg: int, out: nat,
                                        at: int, c: seq<Word>, base: int, top: int, s: State, k: nat)
    requires BodyAt(b2, prelude, b3, b4, resultReg, out, at, c) && All(b2, Within(base, top)) && All(b2, ContextFree())
    requires Boundary(b2, s.pc) && s.pc < |b2| && 0 <= resultReg < base
    requires Run(m, ctx, c, s.(pc := BodyPos(prelude, b3, at, s.pc)), k).Some?
    ensures Run(m, ctx, b2, s, k).Some?
    decreases k
  {
    hide StepAt, BodyAt, All, BodyPos, Boundary, BodyEnds;
    BodyStep(m, ctx, b2, prelude, b3, b4, resultReg, out, at, c, base, top, s);
    match StepAt(m, ctx, b2, s)
    case Goto(t) => BodyBackward(m, ctx, b2, prelude, b3, b4, resultReg, out, at, c, base, top, t, k - 1);
    case _ =>
  }

  // ---------- the argument moves ----------

  lemma {:induction false} PreludeShape(args: seq<Word>, base: int)
    ensures |Prelude(args, base)| == 3 * |args| && MovesOnly(Prelude(args, base))
    ensures forall g | 0 <= g < |args| :: PreludeMove(args, base, g)
  {
    hide MovesOnly;
    if args == [] {
      NoMoves();
    } else {
      var n, v := |args| - 1, Prelude(args[..|args| - 1], base);
      PreludeShape(args[..n], base);
      OneMoreMove(v, SmallintToObject(n + base), args[n]);
      forall g | 0 <= g < |args| ensures PreludeMove(args, base, g) {
        if g < n {
          assert PreludeMove(args[..n], base, g);
        }
      }
    }
  }

  /** The words are whole register moves, one after the other. */
  ghost predicate MovesOnly(w: seq<Word>) {
    |w| % 3 == 0 && Boundary(w, |w|) && forall p | Boundary(w, p) && p < |w| :: PreludeOp(w, p)
  }

  lemma NoMoves()
    ensures MovesOnly([])
  {
    assert Tiled([], 0, 0);
  }

  lemma OneMoreMove(v: seq<Word>, x: Word, y: Word)
    requires MovesOnly(v)
    ensures MovesOnly(v + [OP_MOVE_REGISTER, x, y])
  {
    var w := v + [OP_MOVE_REGISTER, x, y];
    var n := |v|;
    assert w[0..n] == v[0..n] && w[..n] == v;
    TiledMove(v, 0, n, w, 0);
    assert w[n] == OP_MOVE_REGISTER && Fits(w, n) && Length(w, n) == 3;
    hide BaseLength, ArgLength, KnownOp, Length;
    assert Tiled(w, n + 3, n + 3);
    assert Tiled(w, n, n + 3);
    TiledConcat(w, 0, n, n + 3);
    assert |w| % 3 == 0 && |w| == n + 3 && Boundary(w, |w|) && Boundary(w, n);
    hide MovesOnly;
    forall p | Boundary(w, p) && p < |w| ensures PreludeOp(w, p) {
      if p < n {
        EarlierMove(v, w, p);
      } else if n < p {
        InstructionEnds(w, n, p);
      }
    }
    assert MovesOnly(w) by { OnlyMoves(w); }
  }

  lemma OnlyMoves(w: seq<Word>)
    requires |w| % 3 == 0 && Boundary(w, |w|) && forall p | Boundary(w, p) && p < |w| :: PreludeOp(w, p)
    ensures MovesOnly(w)
  {
  }

  lemma EarlierMove(v: seq<Word>, w: seq<Word>, p: int)
    requires MovesOnly(v) && |v| <= |w| && w[..|v|] == v && Boundary(w, p) && p < |v| && Boundary(w, |v|)
    ensures PreludeOp(w, p)
  {
    hide BaseLength, ArgLength, KnownOp, Length, Fits;
    assert v[0..p] == w[0..p] by { assert w[..|v|][..p] == w[..p]; }
    TiledMove(w, 0, p, v, 0);
    assert PreludeOp(v, p);
    assert v[p] == w[..|v|][p] == w[p];
    MoveFits(w, p);
  }

  lemma MoveFits(w: seq<Word>, p: int)
    requires 0 <= p && p + 3 <= |w| && w[p] == OP_MOVE_REGISTER
    ensures Fits(w, p)
  {
  }

  ghost predicate PreludeOp(w: seq<Word>, p: int) {
    0 <= p && p + 3 <= |w| && p % 3 == 0 && w[p] == OP_MOVE_REGISTER && Fits(w, p)
  }

  ghost predicate PreludeMove(args: seq<Word>, base: int, g: int)
    requires 0 <= g < |args|
  {
    var w := Prelude(args, base);
    3 * g + 3 <= |w| && w[3 * g..3 * g + 3] == [OP_MOVE_REGISTER, SmallintToObject(g + base), args[g]]
  }

  /** The argument registers belong to the caller. */
  predicate CallerArgs(args: seq<Word>, base: int) {
    forall g | 0 <= g < |args| :: IsSmallint(args[g]) && 0 <= ObjectToSmallint(args[g]) < base
  }

  lemma PreludeWordAt(b2: seq<Word>, args: seq<Word>, base: int, b3: seq<Word>, g: nat)
    requires Spliced(b2, 0, Prelude(args, base), b3) && g < |args|
    ensures Fits(b3, 3 * g) && Length(b3, 3 * g) == 3
    ensures Fetch(b3, 3 * g) == Instr(OP_MOVE_REGISTER, [SmallintToObject(g + base), args[g]], 0)
  {
    hide BaseLength, ArgLength, KnownOp, Length, Fetch, MovesOnly, Edited;
    PreludeShape(args, base);
    assert PreludeMove(args, base, g);
    SplicedFits(b2, 0, Prelude(args, base), b3);
    SubSlice(b3, 0, Prelude(args, base), 3 * g, 3);
    MoveWords(b3, 3 * g, SmallintToObject(g + base), args[g]);
  }

  lemma {:induction false} PreludeStays(b2: seq<Word>, args: seq<Word>, base: int, b3: seq<Word>, g: nat)
    requires Spliced(b2, 0, Prelude(args, base), b3) && g <= |args|
    ensures Boundary(b3, 3 * g) && Pos(b3, 3 * g) == 3 * g
    decreases g
  {
    hide BaseLength, ArgLength, KnownOp, Length, Spliced, Fetch;
    if g == 0 {
      assert Tiled(b3, 0, 0);
      assert CountReturns(b3, 0, 0) == 0;
    } else {
      PreludeStays(b2, args, base, b3, g - 1);
      PreludeWordAt(b2, args, base, b3, g - 1);
      PosNext(b3, 3 * (g - 1));
      FetchShows(b3, 3 * (g - 1));
    }
  }

  lemma MoveWords(c: seq<Word>, p: int, x: Word, y: Word)
    requires 0 <= p && p + 3 <= |c| && c[p..p + 3] == [OP_MOVE_REGISTER, x, y]
    ensures Fits(c, p) && Length(c, p) == 3 && Fetch(c, p) == Instr(OP_MOVE_REGISTER, [x, y], 0)
  {
    assert c[p] == c[p..p + 3][0] && c[p + 1] == c[p..p + 3][1] && c[p + 2] == c[p..p + 3][2];
    assert c[p + 1..p + 3] == [x, y];
  }

  /** The moves in their final place. */
  lemma PreludeInPlace(b2: seq<Word>, args: seq<Word>, base: int, b3: seq<Word>, b4: seq<Word>, resultReg: int, out: nat, at: int, c: seq<Word>, g: nat)
    requires BodyAt(b2, Prelude(args, base), b3, b4, resultReg, out, at, c) && g < |args|
    ensures Fits(c, at + 3 * g) && Length(c, at + 3 * g) == 3
    ensures Fetch(c, at + 3 * g) == Instr(OP_MOVE_REGISTER, [SmallintToObject(g + base), args[g]], 0)
  {
    hide BaseLength, ArgLength, KnownOp, Length, Fetch, Pos, CountReturns;
    PreludeStays(b2, args, base, b3, g);
    PreludeWordAt(b2, args, base, b3, g);
    var q := 3 * g;
    FetchShows(b3, q);
    assert Boundary(b3, |b3|) && q < |b3|;
    BodyMoves(b3, b4, resultReg, out, q);
    FitsInside(b4, q);
    SubSlice(c, at, b4, q, 3);
    SameWords(b4, q, c, at + q);
    FetchShows(c, at + q);
    FetchShows(b4, q);
  }

  /** The moves copy the arguments into the callee's registers and touch nothing of the caller's. */
  lemma {:induction false} PreludeRuns(m: Machine, ctx: Context, b2: seq<Word>, args: seq<Word>, base: int, b3: seq<Word>, b4: seq<Word>,
                                       resultReg: int, out: nat, at: int, c: seq<Word>, regs: Registers, world: World, g: nat) returns (moved: Registers)
    requires BodyAt(b2, Prelude(args, base), b3, b4, resultReg, out, at, c) && g <= |args| && CallerArgs(args, base)
    ensures Leads(m, ctx, c, State(at, regs, world), g, State(at + 3 * g, moved, world))
    ensures KeptBelow(regs, moved, base)
    ensures forall j | 0 <= j < g :: Get(moved, j + base) == Get(regs, ObjectToSmallint(args[j]))
    decreases g
  {
    hide BodyAt, Fetch, BaseLength, ArgLength, KnownOp, Length;
    if g == 0 {
      moved := regs;
    } else {
      var before := PreludeRuns(m, ctx, b2, args, base, b3, b4, resultReg, out, at, c, regs, world, g - 1);
      PreludeInPlace(b2, args, base, b3, b4, resultReg, out, at, c, g - 1);
      var s := State(at + 3 * (g - 1), before, world);
      moved := before[g - 1 + base := Get(before, ObjectToSmallint(args[g - 1]))];
      var t := State(at + 3 * g, moved, world);
      assert StepAt(m, ctx, c, s) == Goto(t);
      hide StepAt;
      assert Leads(m, ctx, c, t, 0, t);
      assert Leads(m, ctx, c, s, 1, t);
      LeadsTrans(m, ctx, c, State(at, regs, world), g - 1, s, 1, t);
    }
  }

  // ---------- the callee ----------

  /** What the inliner may put in front of a send, beyond what optimizer_method_can_be_inlined asks. */
  ghost predicate CalleeOk(code: seq<Word>, registerCount: int, arity: int, defs: Definitions) {
    && Sound(code) && Closed(code) && 0 <= arity <= registerCount
    && All(code, Within(0, registerCount)) && All(code, ContextFree()) && All(code, Inlinable())
    && WritesBeforeReads(code, defs, arity)
  }

  predicate ArgsIn(frame: Registers, args: seq<Value>) {
    forall g | 0 <= g < |args| :: Get(frame, g) == args[g]
  }

  /** The answer is how the run from s ends. */
  ghost predicate Answers(m: Machine, ctx: Context, code: seq<Word>, s: State, a: Answer) {
    match a
    case Returned(v, w) => Ends(m, ctx, code, s, Return(v, w))
    case Signalled(v, w) => Ends(m, ctx, code, s, Signal(v, w))
    case Never => forall o :: !Ends(m, ctx, code, s, o)
  }

  /** A send to arguments with these maps runs this code, in a frame that holds the arguments and whatever was there. */
  ghost predicate CalleeImplements(m: Machine, key: seq<Word>, maps: Word, ctx: Context, code: seq<Word>) {
    forall args, world | MapsMatch(m, m.elements(maps), args, world) ::
      exists frame :: ArgsIn(frame, args) && Answers(m, ctx, code, State(0, frame, world), m.effect(0, key, args, world))
  }

  function Above(regs: Registers, base: int, x: int): Value {
    Get(regs, x + base)
  }

  /** The callee in its own frame and its renumbered, shortened code in the caller's frame end alike. */
  lemma CalleeSameEnds(m: Machine, ctx: Context, ctx': Context, code: seq<Word>, registerCount: int, arity: int, defs: Definitions,
                       base: int, b1: seq<Word>, b2: seq<Word>, frame: Registers, regs: Registers, world: World, o: Outcome)
    requires CalleeOk(code, registerCount, arity, defs) && Shifted(code, b1, base, |code|) && 0 <= base
    requires SameEnds(m, ctx', b1, b2)
    requires forall g | 0 <= g < arity :: Get(frame, g) == Get(regs, g + base)
    ensures Ends(m, ctx, code, State(0, frame, world), o) <==> Ends(m, ctx', b2, State(0, regs, world), o)
  {
    hide Run, StepAt, Sound, Closed, All, Shifted, WritesBeforeReads;
    var own := map x | 0 <= x < registerCount :: Above(regs, base, x);
    assert Aligned(own, regs, base, registerCount);
    assert AgreeOn(frame, own, DefinedAt(defs, 0)) by {
      FirstDefined(code, defs, arity);
      forall x | x in DefinedAt(defs, 0) ensures Get(frame, x) == Get(own, x) {
        assert Get(frame, x) == Get(regs, x + base);
      }
    }
    StartsInside(code);
    forall k: nat
      ensures Run(m, ctx, code, State(0, frame, world), k) == Run(m, ctx', b1, State(0, regs, world), k)
    {
      RunAgrees(m, ctx, code, defs, arity, 0, frame, own, world, k);
      ShiftRun(m, ctx, ctx', code, b1, 0, own, regs, world, base, registerCount, k);
    }
    assert Ends(m, ctx, code, State(0, frame, world), o) <==> Ends(m, ctx', b1, State(0, regs, world), o);
  }

  lemma FirstDefined(code: seq<Word>, defs: Definitions, arity: int)
    requires WritesBeforeReads(code, defs, arity)
    ensures forall x | x in DefinedAt(defs, 0) :: 0 <= x < arity
  {
    hide FlowsAt;
  }

  lemma StartsInside(code: seq<Word>)
    requires Closed(code)
    ensures Boundary(code, 0) && 0 < |code|
  {
    assert Tiled(code, 0, 0);
  }

  /**
   * One inlining of a compiled callee: the caller c0 with its send at i, the guarded maps, the callee's code and
   * what it becomes (renumbered, without variable instructions, with the argument moves, with its returns
   * rewritten), and the resulting code.  The callee's registers start at base.
   */
  datatype Plan = Plan(c0: seq<Word>, i: nat, maps: Word, code: seq<Word>, registerCount: int, defs: Definitions, base: int,
                       b1: seq<Word>, b2: seq<Word>, b3: seq<Word>, b4: seq<Word>, c: seq<Word>)
  {
    function Args(): seq<Word> {
      if Fits(c0, i) && IsSend(c0[i]) then SendArgs(c0, i) else []
    }

    function Block(): seq<Word> {
      MethodGuard(maps, |Args()|, |b4|, Args()) + b4
    }

    /** Where the callee's code starts, with the argument moves. */
    function At(): int { i + 4 + |Args()| }

    function Result(): int { if i + 1 < |c0| then ObjectToSmallint(c0[i + 1]) else 0 }

    function Moves(): seq<Word> { Prelude(Args(), base) }
  }

  ghost predicate PlanOk(p: Plan, n: int) {
    && Fits(p.c0, p.i) && IsSend(p.c0[p.i]) && RegistersWithin(Fetch(p.c0, p.i), 0, n) && 0 <= n <= p.base
    && CalleeOk(p.code, p.registerCount, |p.Args()|, p.defs)
    && Shifted(p.code, p.b1, p.base, |p.code|)
    && Sound(p.b2) && Closed(p.b2) && Sound(p.b3) && Closed(p.b3)
    && (forall ok | All(p.b1, ok) :: All(p.b2, ok)) && (forall m, ctx :: SameEnds(m, ctx, p.b1, p.b2))
    && Spliced(p.b2, 0, p.Moves(), p.b3) && ReturnsClear(p.b3)
    && ReplacedSoFar(p.b3, |p.b3|, p.b4, p.Result(), Length(p.c0, p.i))
    && Spliced(p.c0, p.i, p.Block(), p.c)
  }

  lemma PlanSend(p: Plan, n: int)
    requires PlanOk(p, n)
    ensures var send, args := Fetch(p.c0, p.i), p.Args();
      && Fits(p.c0, p.i) && n <= p.base && IsSend(send.op) && |send.args| == 3 + |args| && send.args[3..] == args && Length(p.c0, p.i) == 4 + |args|
      && CallerArgs(args, n) && 0 <= p.Result() < n && Arg(send, 0) == p.Result() && !AsksForContext(send.op)
      && |p.Block()| == 4 + |args| + |p.b4| && |p.Moves()| == 3 * |args| && p.i + |p.Block()| <= |p.c|
  {
    hide Fits, Length, BaseLength, ArgLength, KnownOp, Fetch, Spliced, ReplacedSoFar, CalleeOk, Sound, Closed, Shifted, RegistersWithin, All, MovesOnly;
    SendRegisters(p.c0, p.i, n);
    PreludeShape(p.Args(), p.base);
    SplicedFits(p.c0, p.i, p.Block(), p.c);
  }

  lemma SendRegisters(c0: seq<Word>, i: nat, n: int)
    requires Fits(c0, i) && IsSend(c0[i]) && RegistersWithin(Fetch(c0, i), 0, n)
    ensures var send, args := Fetch(c0, i), SendArgs(c0, i);
      && IsSend(send.op) && |send.args| == 3 + |args| && send.args[3..] == args && Length(c0, i) == 4 + |args|
      && CallerArgs(args, n) && i + 1 < |c0| && IsSmallint(c0[i + 1]) && 0 <= ObjectToSmallint(c0[i + 1]) < n && Arg(send, 0) == ObjectToSmallint(c0[i + 1])
      && !AsksForContext(send.op)
  {
    SendShape(c0, i);
    var send, args := Fetch(c0, i), SendArgs(c0, i);
    assert IsRegisterOperand(send.op, 0);
    forall g | 0 <= g < |args| ensures IsSmallint(args[g]) && 0 <= ObjectToSmallint(args[g]) < n {
      assert IsRegisterOperand(send.op, 3 + g) && send.args[3 + g] == send.args[3..][g];
    }
  }

  lemma SplicedFits(c0: seq<Word>, o: nat, ins: seq<Word>, c: seq<Word>)
    requires Spliced(c0, o, ins, c)
    ensures o + |ins| <= |c| == |c0| + |ins| && c[o..o + |ins|] == ins
  {
  }

  lemma PlanBody(p: Plan, n: int)
    requires PlanOk(p, n)
    ensures BodyAt(p.b2, p.Moves(), p.b3, p.b4, p.Result(), 4 + |p.Args()|, p.At(), p.c)
    ensures All(p.b2, Within(p.base, p.base + p.registerCount)) && All(p.b2, ContextFree())
    ensures Boundary(p.b2, 0) && 0 < |p.b2|
    ensures BodyPos(p.Moves(), p.b3, p.At(), 0) == p.At() + 3 * |p.Args()|
  {
    hide Fits, Length, BaseLength, ArgLength, KnownOp, Sound, Closed, ReplacedSoFar, WritesBeforeReads, Spliced, MovesOnly, Pos, Fetch, RegistersWithin,
      ReturnsClear, Shifted, All, MethodGuard, Prelude, Plan.Args;
    PlanSend(p, n);
    PreludeShape(p.Args(), p.base);
    MovesBoundary(p.Moves());
    SplicedFits(p.c0, p.i, p.Block(), p.c);
    BlockTail(p);
    SubSlice(p.c, p.i, p.Block(), 4 + |p.Args()|, |p.b4|);
    ShiftedSound(p.code, p.b1, p.base, p.registerCount);
    ShiftedAll(p.code, p.b1, p.base, ContextFree());
    ShiftedAll(p.code, p.b1, p.base, Inlinable());
    StartsInside(p.b2);
    PreludeStays(p.b2, p.Args(), p.base, p.b3, |p.Args()|);
  }

  lemma BlockTail(p: Plan)
    ensures |p.Block()| == 4 + |p.Args()| + |p.b4| && p.Block()[4 + |p.Args()|..4 + |p.Args()| + |p.b4|] == p.b4
  {
  }

  lemma MovesBoundary(w: seq<Word>)
    requires MovesOnly(w)
    ensures Boundary(w, |w|)
  {
  }

  /** The guard of a method block, as a step. */
  lemma PlanGuard(m: Machine, ctx: Context, p: Plan, n: int, regs: Registers, world: World) returns (given: seq<Value>)
    requires PlanOk(p, n)
    ensures EffectOf(m, ctx, Fetch(p.c0, p.i), regs, world) == m.effect(0, Key(Fetch(p.c0, p.i)), given, world)
    ensures |given| == |p.Args()| && forall g | 0 <= g < |given| :: given[g] == Get(regs, ObjectToSmallint(p.Args()[g]))
    ensures StepAt(m, ctx, p.c, State(p.i, regs, world)) ==
      if MapsMatch(m, m.elements(p.maps), given, world) then Goto(State(p.At(), regs, world))
      else Goto(State(p.i + |p.Block()|, regs, world))
  {
    hide Fetch, BaseLength, ArgLength, KnownOp, Length, PlanOk, Fits, Key, MapsMatch, Plan.Args, Plan.Block, Step, Operands, RegisterLocations, IsRegisterOperand;
    PlanSend(p, n);
    PlanHead(p, n);
    var args, send := p.Args(), Fetch(p.c0, p.i);
    SendReads(send, regs);
    given := GuardArgs(send, 3, regs);
    var guard := Fetch(p.c, p.i);
    SameGuardArgs(guard, 3, send, 3, regs);
    MethodGuardStep(m, ctx, guard, p.i + 4 + |args|, regs, world);
    forall g | 0 <= g < |given| ensures given[g] == Get(regs, ObjectToSmallint(args[g])) {
      assert send.args[3 + g] == send.args[3..][g] == args[g];
    }
  }

  lemma MethodGuardStep(m: Machine, ctx: Context, guard: Instr, next: int, regs: Registers, world: World)
    requires guard.op == OP_INLINE_METHOD_CHECK && 3 <= |guard.args|
    ensures Step(m, ctx, guard, next, regs, world) ==
      if MapsMatch(m, m.elements(guard.args[0]), GuardArgs(guard, 3, regs), world) then Goto(State(next, regs, world))
      else Goto(State(guard.target, regs, world))
  {
  }

  /** The guard is where the send was. */
  ghost predicate HeadOk(p: Plan) {
    Fits(p.c, p.i) && Length(p.c, p.i) == 4 + |p.Args()|
    && var guard := Fetch(p.c, p.i);
      && guard.op == OP_INLINE_METHOD_CHECK
      && 3 <= |guard.args| && guard.args[0] == p.maps && guard.args[3..] == p.Args() && guard.target == p.i + |p.Block()|
  }

  lemma PlanHead(p: Plan, n: int)
    requires PlanOk(p, n)
    ensures HeadOk(p)
  {
    PlanSend(p, n);
    MethodGuardShape(p.maps, |p.b4|, p.Args(), p.b4);
    SplicedFits(p.c0, p.i, p.Block(), p.c);
    var block, c, i, args, maps := p.Block(), p.c, p.i, p.Args(), p.maps;
    assert block == MethodGuard(maps, |args|, |p.b4|, args) + p.b4;
    hide *;
    HeadCarried(c, i, block, maps, args, |p.b4|, p.b4);
    HeadWhen(p);
  }

  lemma HeadCarried(c: seq<Word>, i: nat, block: seq<Word>, maps: Word, args: seq<Word>, jump: int, body: seq<Word>)
    requires block == MethodGuard(maps, |args|, jump, args) + body && i + |block| <= |c| && c[i..i + |block|] == block
    ensures Fits(c, i) && Length(c, i) == 4 + |args|
    ensures Fetch(c, i) == Instr(OP_INLINE_METHOD_CHECK, [maps, SmallintToObject(|args|), 0] + args, i + 4 + |args| + jump)
  {
    MethodGuardShape(maps, jump, args, body);
    hide Fits, Length, Fetch, BaseLength, ArgLength, KnownOp;
    SubSlice(c, i, block, 0, 4 + |args|);
    SameWords(block, 0, c, i);
  }

  lemma HeadWhen(p: Plan)
    requires |p.Block()| == 4 + |p.Args()| + |p.b4| && Fits(p.c, p.i) && Length(p.c, p.i) == 4 + |p.Args()|
    requires Fetch(p.c, p.i) == Instr(OP_INLINE_METHOD_CHECK, [p.maps, SmallintToObject(|p.Args()|), 0] + p.Args(), p.i + 4 + |p.Args()| + |p.b4|)
    ensures HeadOk(p)
  {
    hide Fits, Length, Fetch, Plan.Args, Plan.Block;
  }

  /** The guard passes: the arguments are moved, and the callee's body runs. */
  lemma GuardPasses(m: Machine, ctx: Context, cctx: Context, p: Plan, n: int, regs: Registers, world: World, given: seq<Value>, a: Answer)
    requires PlanOk(p, n) && CalleeImplements(m, Key(Fetch(p.c0, p.i)), p.maps, cctx, p.code) && MapsMatch(m, m.elements(p.maps), given, world)
    requires a == m.effect(0, Key(Fetch(p.c0, p.i)), given, world)
    requires |given| == |p.Args()| && forall g | 0 <= g < |given| :: given[g] == Get(regs, ObjectToSmallint(p.Args()[g]))
    requires StepAt(m, ctx, p.c, State(p.i, regs, world)) == Goto(State(p.At(), regs, world))
    ensures match a
      case Returned(v, w) => Delivers(m, ctx, p.c, State(p.i, regs, world), p.i + |p.Block()| + 1 + |Fetch(p.c0, p.i).args|, n, Arg(Fetch(p.c0, p.i), 0), v, w)
      case Signalled(v, w) => Ends(m, ctx, p.c, State(p.i, regs, world), Signal(v, w))
      case Never => forall o :: !Ends(m, ctx, p.c, State(p.i, regs, world), o)
  {
    hide *;
    PlanSend(p, n);
    var k, u := GuardThenMoves(m, ctx, p, n, regs, world);
    var frame := CalleeAnswers(m, cctx, p, given, world, a);
    MovedArgs(p.Args(), p.base, regs, u.regs, given, frame);
    CalleeInPlace(m, ctx, cctx, p, n, State(p.i, regs, world), u, k, frame, a);
  }

  lemma CalleeAnswers(m: Machine, cctx: Context, p: Plan, given: seq<Value>, world: World, a: Answer) returns (frame: Registers)
    requires Fits(p.c0, p.i) && CalleeImplements(m, Key(Fetch(p.c0, p.i)), p.maps, cctx, p.code)
    requires MapsMatch(m, m.elements(p.maps), given, world) && a == m.effect(0, Key(Fetch(p.c0, p.i)), given, world)
    ensures ArgsIn(frame, given) && Answers(m, cctx, p.code, State(0, frame, world), a)
  {
    hide Key, Fetch, MapsMatch, Answers, ArgsIn;
    frame :| ArgsIn(frame, given) && Answers(m, cctx, p.code, State(0, frame, world), a);
  }

  /** The guard that passes and the argument moves behind it. */
  lemma GuardThenMoves(m: Machine, ctx: Context, p: Plan, n: int, regs: Registers, world: World) returns (k: nat, u: State)
    requires PlanOk(p, n) && StepAt(m, ctx, p.c, State(p.i, regs, world)) == Goto(State(p.At(), regs, world))
    ensures u.pc == p.At() + 3 * |p.Args()| && u.world == world && Leads(m, ctx, p.c, State(p.i, regs, world), k, u)
    ensures KeptBelow(regs, u.regs, p.base)
    ensures forall j | 0 <= j < |p.Args()| :: Get(u.regs, j + p.base) == Get(regs, ObjectToSmallint(p.Args()[j]))
  {
    hide Fits, Length, BaseLength, ArgLength, KnownOp, StepAt, Key, Fetch, BodyAt, All, EffectOf, PlanOk, Plan.Args, Plan.Block, MapsMatch,
      Run, BodyPos, IsSend, ContextFree, Within;
    PlanSend(p, n);
    PlanBody(p, n);
    var args := p.Args();
    var s, t := State(p.i, regs, world), State(p.At(), regs, world);
    assert CallerArgs(args, p.base);
    var moved := PreludeRuns(m, ctx, p.b2, args, p.base, p.b3, p.b4, p.Result(), 4 + |p.Args()|, p.At(), p.c, regs, world, |args|);
    u := State(p.At() + 3 * |args|, moved, world);
    k := 1 + |args|;
    assert Leads(m, ctx, p.c, t, 0, t);
    assert Leads(m, ctx, p.c, s, 1, t);
    LeadsTrans(m, ctx, p.c, s, 1, t, |args|, u);
  }

  /** The inlined callee does what the send would have done. */
  lemma MethodBlockBehaves(m: Machine, ctx: Context, cctx: Context, p: Plan, n: int, regs: Registers, world: World)
    requires PlanOk(p, n) && CalleeImplements(m, Key(Fetch(p.c0, p.i)), p.maps, cctx, p.code)
    ensures BlockBehaves(m, ctx, p.c, p.i, |p.Block()|, Fetch(p.c0, p.i), n, regs, world)
  {
    hide Fits, Length, BaseLength, ArgLength, KnownOp, StepAt, Key, Fetch, All, EffectOf, PlanOk, Plan.Args, Plan.Block, MapsMatch, Delivers, Ends, PassesOn,
      CalleeImplements;
    PlanSend(p, n);
    var given := PlanGuard(m, ctx, p, n, regs, world);
    if MapsMatch(m, m.elements(p.maps), given, world) {
      GuardPasses(m, ctx, cctx, p, n, regs, world, given, m.effect(0, Key(Fetch(p.c0, p.i)), given, world));
    } else {
      StepPasses(m, ctx, p.c, p.i, p.i + |p.Block()|, n, regs, world);
    }
  }

  lemma MovedArgs(args: seq<Word>, base: int, regs: Registers, moved: Registers, given: seq<Value>, frame: Registers)
    requires |given| == |args| && ArgsIn(frame, given)
    requires forall g | 0 <= g < |args| :: given[g] == Get(regs, ObjectToSmallint(args[g]))
    requires forall j | 0 <= j < |args| :: Get(moved, j + base) == Get(regs, ObjectToSmallint(args[j]))
    ensures forall g | 0 <= g < |args| :: Get(frame, g) == Get(moved, g + base)
  {
    forall g | 0 <= g < |args| ensures Get(frame, g) == Get(moved, g + base) {
      assert given[g] == Get(regs, ObjectToSmallint(args[g]));
    }
  }

  /** From the body's start on, the caller's code does what the answer of the send says. */
  lemma CalleeInPlace(m: Machine, ctx: Context, cctx: Context, p: Plan, n: int, s: State, u: State, k: nat, frame: Registers, a: Answer)
    requires PlanOk(p, n) && s.pc == p.i && u.pc == p.At() + 3 * |p.Args()| && u.world == s.world
    requires Leads(m, ctx, p.c, s, k, u) && KeptBelow(s.regs, u.regs, p.base)
    requires forall g | 0 <= g < |p.Args()| :: Get(frame, g) == Get(u.regs, g + p.base)
    requires Answers(m, cctx, p.code, State(0, frame, s.world), a)
    ensures match a
      case Returned(v, w) => Delivers(m, ctx, p.c, s, p.i + |p.Block()| + 1 + |Fetch(p.c0, p.i).args|, n, Arg(Fetch(p.c0, p.i), 0), v, w)
      case Signalled(v, w) => Ends(m, ctx, p.c, s, Signal(v, w))
      case Never => forall o :: !Ends(m, ctx, p.c, s, o)
  {
    hide Fits, Length, BaseLength, ArgLength, KnownOp, StepAt, Fetch, BodyAt, All, PlanOk, Plan.Args, Plan.Block, Leads, Run, BodyPos;
    PlanSend(p, n);
    PlanBody(p, n);
    var out: nat, base := 4 + |p.Args()|, p.base;
    var s2 := State(0, u.regs, s.world);
    assert s2.(pc := BodyPos(p.Moves(), p.b3, p.At(), 0)) == u;
    forall o ensures Ends(m, cctx, p.code, State(0, frame, s.world), o) <==> Ends(m, ctx, p.b2, s2, o) {
      PlanSameEnds(m, cctx, ctx, p, n, frame, u.regs, s.world, o);
    }
    match a
    case Returned(v, w) =>
      var j: nat :| Run(m, ctx, p.b2, s2, j) == Some(Return(v, w));
      BodyForward(m, ctx, p.b2, p.Moves(), p.b3, p.b4, p.Result(), out, p.At(), p.c, base, base + p.registerCount, s2, j);
      DeliversLater(m, ctx, p.c, s, k, u, p.At() + |p.b4| + out, base, p.Result(), v, w);
      DeliversBelow(m, ctx, p.c, s, p.At() + |p.b4| + out, base, n, p.Result(), v, w);
    case Signalled(v, w) =>
      var j: nat :| Run(m, ctx, p.b2, s2, j) == Some(Signal(v, w));
      BodyForward(m, ctx, p.b2, p.Moves(), p.b3, p.b4, p.Result(), out, p.At(), p.c, base, base + p.registerCount, s2, j);
      LeadsEnds(m, ctx, p.c, s, k, u, Signal(v, w));
    case Never =>
      forall o ensures !Ends(m, ctx, p.c, s, o) {
        if Ends(m, ctx, p.c, s, o) {
          var j: nat :| Run(m, ctx, p.c, s, j) == Some(o);
          LeadsBefore(m, ctx, p.c, s, k, u, j);
          BodyBackward(m, ctx, p.b2, p.Moves(), p.b3, p.b4, p.Result(), out, p.At(), p.c, base, base + p.registerCount, s2, j - k);
          SomeEnd(m, ctx, p.b2, s2, j - k);
        }
      }
  }

  lemma SomeEnd(m: Machine, ctx: Context, c: seq<Word>, s: State, k: nat)
    requires Run(m, ctx, c, s, k).Some?
    ensures exists o :: Ends(m, ctx, c, s, o)
  {
    assert Ends(m, ctx, c, s, Run(m, ctx, c, s, k).value);
  }

  lemma PlanSameEnds(m: Machine, cctx: Context, ctx: Context, p: Plan, n: int, frame: Registers, regs: Registers, world: World, o: Outcome)
    requires PlanOk(p, n) && forall g | 0 <= g < |p.Args()| :: Get(frame, g) == Get(regs, g + p.base)
    ensures Ends(m, cctx, p.code, State(0, frame, world), o) <==> Ends(m, ctx, p.b2, State(0, regs, world), o)
  {
    hide Fits, Length, BaseLength, ArgLength, KnownOp, StepAt, Fetch, All, Plan.Args, Plan.Block, Run, Sound, Closed, Shifted, CalleeOk, Spliced, ReplacedSoFar;
    CalleeSameEnds(m, cctx, ctx, p.code, p.registerCount, |p.Args()|, p.defs, p.base, p.b1, p.b2, frame, regs, world, o);
  }

  lemma DeliversBelow(m: Machine, ctx: Context, c: seq<Word>, s: State, after: int, base: int, n: int, result: int, v: Value, w: World)
    requires Delivers(m, ctx, c, s, after, base, result, v, w) && n <= base
    ensures Delivers(m, ctx, c, s, after, n, result, v, w)
  {
    hide Leads;
    var j: nat, r :| LeadsTo(m, ctx, c, s, j, after, r, w) && ResultSet(s.regs, r, base, result, v);
    assert ResultSet(s.regs, r, n, result, v);
  }
}

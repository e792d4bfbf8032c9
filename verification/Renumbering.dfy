/** Code with renumbered registers does, on renumbered registers, what the original does. */
module Renumbering {
  import opened Opcodes
  import opened CodeVectors
  import opened Execution
  import opened EditedCode
  import opened Rewriting

  /** The first n registers of a frame, found offset registers higher in another. */
  predicate Aligned(frame: Registers, regs: Registers, offset: int, n: int) {
    forall x | 0 <= x < n :: Get(frame, x) == Get(regs, x + offset)
  }

  /** The registers below a limit are as they were. */
  predicate KeptBelow(regs: Registers, regs': Registers, limit: int) {
    forall x | 0 <= x < limit :: Get(regs', x) == Get(regs, x)
  }

  /** A step and its renumbered version go to the same place with aligned frames, or end alike. */
  ghost predicate StepsAligned(r: StepResult, r': StepResult, regs: Registers, offset: int, n: int) {
    match r
    case Goto(t) => r'.Goto? && r'.state.pc == t.pc && r'.state.world == t.world
                    && Aligned(t.regs, r'.state.regs, offset, n) && KeptBelow(regs, r'.state.regs, offset)
    case _ => r' == r
  }

  lemma {:induction false} ShiftedReads(ins: Instr, offset: int, n: int, frame: Registers, regs: Registers, k: nat)
    requires RegistersWithin(ins, 0, n) && Aligned(frame, regs, offset, n)
    ensures Values(regs, ReadOperands(OffsetInstr(ins, offset), k)) == Values(frame, ReadOperands(ins, k))
    decreases |ins.args| - k
  {
    hide Operands, RegisterLocations, Bit, BaseLength;
    if k < |ins.args| {
      ShiftedReads(ins, offset, n, frame, regs, k + 1);
      if IsRead(ins, k) {
        var xs, xs' := ReadOperands(ins, k + 1), ReadOperands(OffsetInstr(ins, offset), k + 1);
        assert Values(frame, [Arg(ins, k)] + xs) == [Get(frame, Arg(ins, k))] + Values(frame, xs);
        assert Values(regs, [Arg(ins, k) + offset] + xs') == [Get(regs, Arg(ins, k) + offset)] + Values(regs, xs');
      }
    }
  }

  lemma ShiftedGuard(ins: Instr, offset: int, n: int, frame: Registers, regs: Registers, first: nat)
    requires RegistersWithin(ins, 0, n) && Aligned(frame, regs, offset, n) && BaseLength(ins.op) <= first
    ensures GuardArgs(OffsetInstr(ins, offset), first, regs) == GuardArgs(ins, first, frame)
  {
    hide Operands, RegisterLocations, Bit, BaseLength;
    var here, there := GuardArgs(ins, first, frame), GuardArgs(OffsetInstr(ins, offset), first, regs);
    forall k | 0 <= k < |here|
      ensures here[k] == there[k]
    {
      assert IsRegisterOperand(ins.op, first + k);
      var j := first + k;
      assert OffsetInstr(ins, offset).args[j] == ins.args[j] + 2 * offset;
      assert Arg(OffsetInstr(ins, offset), j) == Arg(ins, j) + offset && 0 <= Arg(ins, j) < n;
      assert here[k] == Get(frame, Arg(ins, j));
      assert there[k] == Get(regs, Arg(OffsetInstr(ins, offset), j));
    }
  }

  lemma WriteAligned(frame: Registers, regs: Registers, x: int, v: Value, offset: int, n: int)
    requires Aligned(frame, regs, offset, n) && 0 <= x && 0 <= offset
    ensures Aligned(frame[x := v], regs[x + offset := v], offset, n) && KeptBelow(regs, regs[x + offset := v], offset)
  {
    forall y {:trigger Get(frame[x := v], y)} | 0 <= y < n
      ensures Get(frame[x := v], y) == Get(regs[x + offset := v], y + offset)
    {
      assert Get(frame, y) == Get(regs, y + offset);
    }
  }

  lemma ShiftedDeliver(ins: Instr, pc: int, offset: int, n: int, frame: Registers, regs: Registers, a: Answer)
    requires RegistersWithin(ins, 0, n) && Aligned(frame, regs, offset, n) && 0 <= offset
    requires DestOperand(ins.op) >= 0 ==> DestOperand(ins.op) < |ins.args| && IsRegisterOperand(ins.op, DestOperand(ins.op))
    ensures StepsAligned(Deliver(ins, pc, frame, a), Deliver(OffsetInstr(ins, offset), pc, regs, a), regs, offset, n)
  {
    hide Operands, RegisterLocations, Bit, BaseLength;
    if a.Returned? && DestOperand(ins.op) >= 0 {
      var d: nat := DestOperand(ins.op);
      assert Arg(OffsetInstr(ins, offset), d) == Arg(ins, d) + offset && 0 <= Arg(ins, d);
      WriteAligned(frame, regs, Arg(ins, d), a.value, offset, n);
    }
  }

  lemma DestIsRegister(op: Word)
    requires KnownOp(op) && DestOperand(op) >= 0
    ensures DestOperand(op) < BaseLength(op) && IsRegisterOperand(op, DestOperand(op))
  {
  }

  lemma ShiftedKey(ins: Instr, offset: int)
    ensures Key(OffsetInstr(ins, offset)) == Key(ins)
  {
    hide Operands, RegisterLocations, Bit, BaseLength;
  }

  lemma ShiftStep(m: Machine, ctx: Context, ctx': Context, ins: Instr, next: int,
                  frame: Registers, regs: Registers, world: World, offset: int, n: int)
    requires KnownOp(ins.op) && BaseLength(ins.op) <= |ins.args| && RegistersWithin(ins, 0, n)
    requires AsksForContext(ins.op) ==> ctx' == ctx && offset == 0 && ctx.inputs <= n
    requires Aligned(frame, regs, offset, n) && 0 <= offset
    ensures StepsAligned(Step(m, ctx, ins, next, frame, world),
                         Step(m, ctx', OffsetInstr(ins, offset), next, regs, world), regs, offset, n)
  {
    var ins' := OffsetInstr(ins, offset);
    if ins.op == OP_RESEND_MESSAGE {
      forall i | 0 <= i < ctx.inputs ensures Get(frame, i) == Get(regs, i) {
        assert Get(frame, i) == Get(regs, i + offset);
      }
      assert Values(frame, seq(ctx.inputs, i => i)) == Values(regs, seq(ctx.inputs, i => i));
    }
    ShiftedKey(ins, offset);
    ShiftedReads(ins, offset, n, frame, regs, 0);
    if DestOperand(ins.op) >= 0 {
      DestIsRegister(ins.op);
    }
    if ins.op == OP_INLINE_METHOD_CHECK {
      ShiftedGuard(ins, offset, n, frame, regs, 3);
      assert !IsRegisterOperand(ins.op, 0);
      assert Literal(ins', 0) == Literal(ins, 0);
    } else if ins.op == OP_INLINE_PRIMITIVE_CHECK {
      ShiftedGuard(ins, offset, n, frame, regs, 5);
      assert !IsRegisterOperand(ins.op, 1) && !IsRegisterOperand(ins.op, 2);
      assert Literal(ins', 1) == Literal(ins, 1) && Literal(ins', 2) == Literal(ins, 2);
      ShiftedDeliver(ins, ins.target, offset, n, frame, regs,
        m.effect(0, PrimitiveKey(Literal(ins, 2)), GuardArgs(ins, 5, frame), world));
    } else if Plain(ins.op) {
      ShiftPlain(m, ctx, ctx', ins, next, frame, regs, world, offset, n);
    } else {
      ShiftedDeliver(ins, next, offset, n, frame, regs, EffectOf(m, ctx, ins, frame, world));
    }
  }

  /** The instructions that only touch registers and the program counter. */
  predicate Plain(op: Word) {
    op == OP_JUMP_TO || op == OP_BRANCH_IF_TRUE || op == OP_BRANCH_IF_FALSE || op == OP_MOVE_REGISTER || op == OP_LOAD_LITERAL
    || op == OP_IS_NIL || op == OP_IS_IDENTICAL_TO || IsVariableOp(op) || op == OP_RETURN_REGISTER || op == OP_RETURN_VALUE
    || op == OP_RETURN_FROM || op == OP_RESUME || op == OP_BRANCH_KEYED
  }

  lemma ShiftPlain(m: Machine, ctx: Context, ctx': Context, ins: Instr, next: int,
                   frame: Registers, regs: Registers, world: World, offset: int, n: int)
    requires Plain(ins.op) && BaseLength(ins.op) <= |ins.args| && RegistersWithin(ins, 0, n)
    requires Aligned(frame, regs, offset, n) && 0 <= offset
    ensures StepsAligned(Step(m, ctx, ins, next, frame, world),
                         Step(m, ctx', OffsetInstr(ins, offset), next, regs, world), regs, offset, n)
  {
    hide Step, Operands, RegisterLocations, Bit, BaseLength, RegistersWithin, OffsetInstr, IsRegisterOperand;
    if DestOperand(ins.op) == 0 {
      ShiftWrite(m, ctx, ctx', ins, next, frame, regs, world, offset, n);
    } else {
      ShiftNoWrite(m, ctx, ctx', ins, next, frame, regs, world, offset, n);
    }
  }

  lemma ShiftWrite(m: Machine, ctx: Context, ctx': Context, ins: Instr, next: int,
                   frame: Registers, regs: Registers, world: World, offset: int, n: int)
    requires Plain(ins.op) && DestOperand(ins.op) == 0 && BaseLength(ins.op) <= |ins.args| && RegistersWithin(ins, 0, n)
    requires Aligned(frame, regs, offset, n) && 0 <= offset
    ensures StepsAligned(Step(m, ctx, ins, next, frame, world),
                         Step(m, ctx', OffsetInstr(ins, offset), next, regs, world), regs, offset, n)
  {
    ShiftedArgs(ins, offset, n);
    PlainOperands(ins.op);
    hide Operands, RegisterLocations, Bit, BaseLength, RegistersWithin, OffsetInstr, IsRegisterOperand, Arg, Literal, MapsMatch, GuardArgs, EffectOf, Deliver, PrimitiveKey;
    var step := Step(m, ctx, ins, next, frame, world);
    if step.Goto? {
      WriteAligned(frame, regs, Arg(ins, 0), Get(step.state.regs, Arg(ins, 0)), offset, n);
    }
  }

  lemma ShiftNoWrite(m: Machine, ctx: Context, ctx': Context, ins: Instr, next: int,
                     frame: Registers, regs: Registers, world: World, offset: int, n: int)
    requires Plain(ins.op) && DestOperand(ins.op) != 0 && BaseLength(ins.op) <= |ins.args| && RegistersWithin(ins, 0, n)
    requires Aligned(frame, regs, offset, n) && 0 <= offset
    ensures StepsAligned(Step(m, ctx, ins, next, frame, world),
                         Step(m, ctx', OffsetInstr(ins, offset), next, regs, world), regs, offset, n)
  {
    ShiftedArgs(ins, offset, n);
    PlainOperands(ins.op);
    hide Operands, RegisterLocations, Bit, BaseLength, RegistersWithin, OffsetInstr, IsRegisterOperand, Arg, Literal, MapsMatch, GuardArgs, EffectOf, Deliver, PrimitiveKey;
  }

  lemma ShiftedArgs(ins: Instr, offset: int, n: int)
    requires RegistersWithin(ins, 0, n)
    ensures var ins' := OffsetInstr(ins, offset);
      && ins'.op == ins.op && |ins'.args| == |ins.args| && ins'.target == ins.target
      && forall k: nat | k < |ins.args| ::
           && Arg(ins', k) == Arg(ins, k) + (if IsRegisterOperand(ins.op, k) then offset else 0)
           && (Literal(ins', k) == Literal(ins, k) || IsRegisterOperand(ins.op, k))
           && (IsRegisterOperand(ins.op, k) ==> 0 <= Arg(ins, k) < n)
  {
    hide Operands, RegisterLocations, Bit, BaseLength;
  }

  lemma PlainOperands(op: Word)
    requires Plain(op)
    ensures DestOperand(op) == 0 ==> 1 <= BaseLength(op) && IsRegisterOperand(op, 0)
    ensures op == OP_MOVE_REGISTER || op == OP_IS_NIL || op == OP_IS_IDENTICAL_TO ==> 2 <= BaseLength(op) && IsRegisterOperand(op, 1)
    ensures op == OP_IS_IDENTICAL_TO ==> 3 <= BaseLength(op) && IsRegisterOperand(op, 2)
    ensures op == OP_LOAD_LITERAL || op == OP_RETURN_FROM ==> 2 <= BaseLength(op) && !IsRegisterOperand(op, 1)
    ensures op == OP_RETURN_VALUE ==> 1 <= BaseLength(op) && !IsRegisterOperand(op, 0)
    ensures op == OP_BRANCH_IF_TRUE || op == OP_BRANCH_IF_FALSE || op == OP_RETURN_REGISTER || op == OP_RETURN_FROM ==>
              1 <= BaseLength(op) && IsRegisterOperand(op, 0)
    ensures op == OP_MOVE_REGISTER || op == OP_IS_NIL || op == OP_IS_IDENTICAL_TO || op == OP_LOAD_LITERAL ==> DestOperand(op) == 0
  {
  }

  /** No instruction asks for the running method or the running closure. */
  function ContextFree(): Instr -> bool {
    (ins: Instr) => !AsksForContext(ins.op)
  }

  /** Renumbered code runs in lockstep with the original. */
  lemma {:induction false} ShiftRun(m: Machine, ctx: Context, ctx': Context, c0: seq<Word>, c: seq<Word>, pc: int,
                                    frame: Registers, regs: Registers, world: World, offset: int, n: int, k: nat)
    requires Sound(c0) && Closed(c0) && Shifted(c0, c, offset, |c0|) && All(c0, Within(0, n)) && All(c0, ContextFree())
    requires Boundary(c0, pc) && pc < |c0| && Aligned(frame, regs, offset, n) && 0 <= offset
    ensures Run(m, ctx', c, State(pc, regs, world), k) == Run(m, ctx, c0, State(pc, frame, world), k)
    decreases k
  {
    hide Step, BaseLength, ArgLength, KnownOp, Length, OffsetInstr, Boundary, All, Shifted, Aligned, Sound, Closed, AsksForContext, RegistersWithin;
    if k > 0 {
      ShiftedInstruction(c0, c, pc, offset, n);
      var ins, next := Fetch(c0, pc), pc + Length(c0, pc);
      ShiftStep(m, ctx, ctx', ins, next, frame, regs, world, offset, n);
      match Step(m, ctx, ins, next, frame, world)
      case Goto(t) =>
        StepStays(m, ctx, c0, State(pc, frame, world));
        var t' := Step(m, ctx', OffsetInstr(ins, offset), next, regs, world).state;
        ShiftRun(m, ctx, ctx', c0, c, t.pc, t.regs, t'.regs, t.world, offset, n, k - 1);
      case _ =>
    }
  }

  lemma ShiftedInstruction(c0: seq<Word>, c: seq<Word>, pc: int, offset: int, n: int)
    requires Sound(c0) && Shifted(c0, c, offset, |c0|) && All(c0, Within(0, n)) && All(c0, ContextFree())
    requires Boundary(c0, pc) && pc < |c0|
    ensures ShiftedAt(c0, c, offset, pc) && KnownOp(c0[pc]) && BaseLength(c0[pc]) <= |Fetch(c0, pc).args|
    ensures RegistersWithin(Fetch(c0, pc), 0, n) && !AsksForContext(c0[pc])
  {
    assert ShiftedAt(c0, c, offset, pc);
    hide BaseLength, IsRegisterOperand, AsksForContext;
    var ins := Fetch(c0, pc).(target := 0);
    assert Within(0, n)(ins) && ContextFree()(ins);
  }

  /** Closed code stays on its instructions. */
  lemma StepStays(m: Machine, ctx: Context, c: seq<Word>, s: State)
    requires Sound(c) && Closed(c) && Boundary(c, s.pc) && s.pc < |c|
    ensures StepAt(m, ctx, c, s).Goto? ==> var t := StepAt(m, ctx, c, s).state; Boundary(c, t.pc) && t.pc < |c|
  {
    hide Step, Length, BaseLength, ArgLength, KnownOp;
    assert SoundAt(c, s.pc) && ClosedAt(c, s.pc);
    InstructionEnds0(c, s.pc);
    FetchShows(c, s.pc);
    var ins, next := Fetch(c, s.pc), s.pc + Length(c, s.pc);
    StepMoves(m, ctx, ins, next, ins.target, next, s.regs, s.world);
  }
}

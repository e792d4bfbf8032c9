/**
 * Code that writes every register other than its arguments before reading it runs the same whatever
 * those registers held at the start.
 */
module Definedness {
  import opened Opcodes
  import opened Execution
  import opened EditedCode
  import opened Renumbering

  /** The registers an instruction reads. */
  function ReadsOf(ins: Instr): seq<int> {
    if IsVariableOp(ins.op) then [] else ReadOperands(ins, 0)
  }

  /** The register an instruction is sure to write; a primitive guard writes on one of its two paths only. */
  function WritesOf(ins: Instr): set<int> {
    if DestOperand(ins.op) >= 0 && ins.op != OP_INLINE_PRIMITIVE_CHECK then {Arg(ins, DestOperand(ins.op))} else {}
  }

  /** A table of registers known to be written when an instruction is reached. */
  type Definitions = map<int, set<int>>

  function DefinedAt(defs: Definitions, p: int): set<int> {
    if p in defs then defs[p] else {}
  }

  /** The table is right at p: what p reads is written, and nothing more is claimed where p goes next. */
  ghost predicate FlowsAt(code: seq<Word>, defs: Definitions, p: int)
    requires Fits(code, p)
  {
    var ins, known := Fetch(code, p), DefinedAt(defs, p);
    && (forall x | x in ReadsOf(ins) :: x in known)
    && (FallsThrough(ins.op) ==> DefinedAt(defs, p + Length(code, p)) <= known + WritesOf(ins))
    && (CanJump(ins.op) ==> DefinedAt(defs, ins.target) <= known + WritesOf(ins))
  }

  /** Every register but the first arity ones is written before it is read. */
  ghost predicate WritesBeforeReads(code: seq<Word>, defs: Definitions, arity: int) {
    && (forall x | x in DefinedAt(defs, 0) :: 0 <= x < arity)
    && forall p | Boundary(code, p) && p < |code| :: Fits(code, p) && FlowsAt(code, defs, p)
  }

  predicate AgreeOn(a: Registers, b: Registers, xs: set<int>) {
    forall x | x in xs :: Get(a, x) == Get(b, x)
  }

  ghost predicate StepsAgree(r: StepResult, r': StepResult, xs: set<int>) {
    match r
    case Goto(t) => r'.Goto? && r'.state.pc == t.pc && r'.state.world == t.world && AgreeOn(t.regs, r'.state.regs, xs)
    case _ => r' == r
  }

  lemma {:induction false} ReadsAgree(ins: Instr, a: Registers, b: Registers, k: nat, known: set<int>)
    requires forall x | x in ReadOperands(ins, k) :: x in known
    requires AgreeOn(a, b, known)
    ensures Values(a, ReadOperands(ins, k)) == Values(b, ReadOperands(ins, k))
    ensures forall j | k <= j < |ins.args| && IsRead(ins, j) :: Get(a, Arg(ins, j)) == Get(b, Arg(ins, j))
    decreases |ins.args| - k
  {
    hide Operands, RegisterLocations, Bit, BaseLength, DestOperand, IsRead;
    if k < |ins.args| {
      var rest := ReadOperands(ins, k + 1);
      if IsRead(ins, k) {
        assert ([Arg(ins, k)] + rest)[0] == Arg(ins, k);
        assert forall x | x in rest :: x in [Arg(ins, k)] + rest;
        ReadsAgree(ins, a, b, k + 1, known);
        assert Values(a, [Arg(ins, k)] + rest) == [Get(a, Arg(ins, k))] + Values(a, rest);
        assert Values(b, [Arg(ins, k)] + rest) == [Get(b, Arg(ins, k))] + Values(b, rest);
      } else {
        ReadsAgree(ins, a, b, k + 1, known);
      }
    }
  }

  lemma GuardsAgree(ins: Instr, a: Registers, b: Registers, first: nat)
    requires BaseLength(ins.op) <= first && DestOperand(ins.op) < first
    requires forall j | 0 <= j < |ins.args| && IsRead(ins, j) :: Get(a, Arg(ins, j)) == Get(b, Arg(ins, j))
    ensures GuardArgs(ins, first, a) == GuardArgs(ins, first, b)
  {
    hide Operands, RegisterLocations, Bit, BaseLength, DestOperand;
    var here, there := GuardArgs(ins, first, a), GuardArgs(ins, first, b);
    forall k | 0 <= k < |here|
      ensures here[k] == there[k]
    {
      assert IsRead(ins, first + k);
    }
  }

  lemma DeliverAgree(ins: Instr, pc: int, a: Registers, b: Registers, answer: Answer, known: set<int>)
    requires AgreeOn(a, b, known)
    ensures StepsAgree(Deliver(ins, pc, a, answer), Deliver(ins, pc, b, answer), known + WritesOf(ins))
  {
  }

  lemma StepAgrees(m: Machine, ctx: Context, ins: Instr, next: int, a: Registers, b: Registers, world: World, known: set<int>)
    requires KnownOp(ins.op) && BaseLength(ins.op) <= |ins.args| && !AsksForContext(ins.op)
    requires AgreeOn(a, b, known) && forall x | x in ReadsOf(ins) :: x in known
    ensures StepsAgree(Step(m, ctx, ins, next, a, world), Step(m, ctx, ins, next, b, world), known + WritesOf(ins))
  {
    if !IsVariableOp(ins.op) {
      ReadsAgree(ins, a, b, 0, known);
      if ins.op == OP_INLINE_METHOD_CHECK {
        GuardsAgree(ins, a, b, 3);
      } else if ins.op == OP_INLINE_PRIMITIVE_CHECK {
        GuardsAgree(ins, a, b, 5);
        DeliverAgree(ins, ins.target, a, b, m.effect(0, PrimitiveKey(Literal(ins, 2)), GuardArgs(ins, 5, a), world), known);
      } else if Plain(ins.op) {
        PlainAgrees(m, ctx, ins, next, a, b, world, known);
      } else {
        DeliverAgree(ins, next, a, b, EffectOf(m, ctx, ins, a, world), known);
      }
    }
  }

  lemma PlainAgrees(m: Machine, ctx: Context, ins: Instr, next: int, a: Registers, b: Registers, world: World, known: set<int>)
    requires Plain(ins.op) && !IsVariableOp(ins.op) && BaseLength(ins.op) <= |ins.args|
    requires AgreeOn(a, b, known)
    requires forall j | 0 <= j < |ins.args| && IsRead(ins, j) :: Get(a, Arg(ins, j)) == Get(b, Arg(ins, j))
    ensures StepsAgree(Step(m, ctx, ins, next, a, world), Step(m, ctx, ins, next, b, world), known + WritesOf(ins))
  {
    PlainOperands(ins.op);
    assert IsRead(ins, 0) <==> IsRegisterOperand(ins.op, 0) && DestOperand(ins.op) != 0;
    assert IsRead(ins, 1) <==> IsRegisterOperand(ins.op, 1) && DestOperand(ins.op) != 1;
    assert IsRead(ins, 2) <==> IsRegisterOperand(ins.op, 2) && DestOperand(ins.op) != 2;
    hide Operands, RegisterLocations, Bit, BaseLength, IsRegisterOperand, IsRead;
  }

  /** What unwritten registers hold never matters. */
  lemma {:induction false} RunAgrees(m: Machine, ctx: Context, c: seq<Word>, defs: Definitions, arity: int, pc: int,
                                     a: Registers, b: Registers, world: World, k: nat)
    requires Sound(c) && Closed(c) && WritesBeforeReads(c, defs, arity) && All(c, ContextFree())
    requires Boundary(c, pc) && pc < |c| && AgreeOn(a, b, DefinedAt(defs, pc))
    ensures Run(m, ctx, c, State(pc, a, world), k) == Run(m, ctx, c, State(pc, b, world), k)
    decreases k
  {
    hide Step, BaseLength, ArgLength, KnownOp, Length, Boundary, All, Sound, Closed, AsksForContext, WritesBeforeReads, ReadsOf, WritesOf;
    if k > 0 {
      FlowInstruction(c, defs, arity, pc);
      var ins, next, known := Fetch(c, pc), pc + Length(c, pc), DefinedAt(defs, pc);
      StepAgrees(m, ctx, ins, next, a, b, world, known);
      match Step(m, ctx, ins, next, a, world)
      case Goto(t) =>
        StepStays(m, ctx, c, State(pc, a, world));
        StepMoves(m, ctx, ins, next, ins.target, next, a, world);
        var t' := Step(m, ctx, ins, next, b, world).state;
        assert DefinedAt(defs, t.pc) <= known + WritesOf(ins);
        RunAgrees(m, ctx, c, defs, arity, t.pc, t.regs, t'.regs, t.world, k - 1);
      case _ =>
    }
  }

  lemma FlowInstruction(c: seq<Word>, defs: Definitions, arity: int, pc: int)
    requires WritesBeforeReads(c, defs, arity) && All(c, ContextFree()) && Boundary(c, pc) && pc < |c|
    ensures Fits(c, pc) && FlowsAt(c, defs, pc) && KnownOp(c[pc]) && BaseLength(c[pc]) <= |Fetch(c, pc).args|
    ensures !AsksForContext(c[pc]) && Fetch(c, pc).op == c[pc]
  {
    hide BaseLength, IsRegisterOperand, AsksForContext, FlowsAt;
    assert ContextFree()(Fetch(c, pc).(target := 0));
  }
}

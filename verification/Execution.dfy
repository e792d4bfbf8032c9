/**
 * What one activation of a stack-allocated method does: a small-step machine over its registers.
 * Everything an instruction does outside the frame (sends, primitives, allocation) is one call of `effect`.
 */
module Execution {
  import opened Wrappers
  import opened Opcodes

  /** What a register holds: an object, as the word that names it. */
  type Value = Word

  /** The state of everything outside the frame. */
  type World = nat


  /** How an effect ends: with a result, with a signal nobody resumed, or never. */
  datatype Answer = Returned(value: Value, world: World) | Signalled(value: Value, world: World) | Never

  datatype Outcome =
    | Return(value: Value, world: World)
    | ReturnFrom(value: Value, depth: int, world: World)
    | Resume(world: World)
    | Signal(value: Value, world: World)

  /** The running method, for the instructions that ask for it, and the number of its inputs. */
  datatype Context = Context(running: nat, inputs: nat)

  datatype Machine = Machine(
    nil: Value,
    trueObject: Value,
    falseObject: Value,
    mapOf: (Value, World) -> Value,
    elements: Word -> seq<Value>,
    effect: (nat, seq<Word>, seq<Value>, World) -> Answer)

  type Registers = map<int, Value>

  function Get(regs: Registers, x: int): Value {
    if x in regs then regs[x] else 0
  }

  datatype State = State(pc: int, regs: Registers, world: World)

  datatype StepResult = Goto(state: State) | Done(outcome: Outcome) | Stuck

  function Arg(ins: Instr, k: nat): int {
    if k < |ins.args| then ObjectToSmallint(ins.args[k]) else 0
  }

  function Literal(ins: Instr, k: nat): Word {
    if k < |ins.args| then ins.args[k] else 0
  }

  /** Which operand names the register that is written; none when negative. */
  function DestOperand(op: Word): int {
    if op == OP_PRIMITIVE_DO || op == OP_APPLY_TO then 2
    else if op == OP_STORE_FREE_VARIABLE || op == OP_INLINE_METHOD_CHECK || op == OP_JUMP_TO || op == OP_RETURN_VALUE
      || op == OP_BRANCH_IF_TRUE || op == OP_BRANCH_IF_FALSE || op == OP_RETURN_REGISTER || op == OP_RETURN_FROM
      || op == OP_RESUME || op == OP_BRANCH_KEYED || IsVariableOp(op) then -1
    else 0
  }

  /** Without a heap-allocated context the variable already is the register, so these do nothing. */
  predicate IsVariableOp(op: Word) {
    op == OP_LOAD_VARIABLE || op == OP_STORE_VARIABLE
  }

  /** The interpreter reads the register that operand k names. */
  predicate IsRead(ins: Instr, k: nat) {
    BaseLength(ins.op) <= k || Operands(ins.op)[k] == Source
  }

  /** The operands that name registers are the one written, those read, and the variable's. */
  lemma RegisterRead(ins: Instr, k: nat)
    requires KnownOp(ins.op)
    ensures IsRegisterOperand(ins.op, k) <==> IsRead(ins, k) || k == DestOperand(ins.op) || IsVariableOp(ins.op)
    ensures IsRead(ins, k) ==> k != DestOperand(ins.op)
  {
  }

  /** The registers named by the operands from k on, without the one that is written. */
  function ReadOperands(ins: Instr, k: nat): seq<int>
    decreases |ins.args| - k
  {
    if k >= |ins.args| then []
    else if IsRead(ins, k) then [Arg(ins, k)] + ReadOperands(ins, k + 1)
    else ReadOperands(ins, k + 1)
  }

  function Values(regs: Registers, xs: seq<int>): seq<Value> {
    seq(|xs|, i requires 0 <= i < |xs| => Get(regs, xs[i]))
  }

  function NormalOp(op: Word): Word {
    if op == OP_INTERNAL_SEND then OP_SEND else op
  }

  /** Opcode and non-register operands: all an effect knows of its instruction. */
  function Key(ins: Instr): seq<Word> {
    [NormalOp(ins.op)] + seq(|ins.args|, k requires 0 <= k < |ins.args| => if IsRegisterOperand(ins.op, k) then 0 else ins.args[k])
  }

  predicate AsksForContext(op: Word) {
    op == OP_NEW_CLOSURE || op == OP_LOAD_ENVIRONMENT || op == OP_LOAD_FREE_VARIABLE || op == OP_STORE_FREE_VARIABLE
    || op == OP_RESEND_MESSAGE
  }

  function EffectOf(m: Machine, ctx: Context, ins: Instr, regs: Registers, world: World): Answer {
    var sources := if ins.op == OP_RESEND_MESSAGE then seq(ctx.inputs, i => i) else ReadOperands(ins, 0);
    m.effect(if AsksForContext(ins.op) then ctx.running else 0, Key(ins), Values(regs, sources), world)
  }

  function MapsMatch(m: Machine, expected: seq<Value>, args: seq<Value>, world: World): bool {
    |expected| == |args| && forall k | 0 <= k < |args| :: expected[k] == m.mapOf(args[k], world)
  }

  /** The values a guard looks at. */
  function GuardArgs(ins: Instr, first: nat, regs: Registers): seq<Value> {
    seq(if first <= |ins.args| then |ins.args| - first else 0, k requires 0 <= k => Get(regs, Arg(ins, first + k)))
  }

  function Write(ins: Instr, regs: Registers, v: Value): Registers {
    if DestOperand(ins.op) < 0 then regs else regs[Arg(ins, DestOperand(ins.op)) := v]
  }

  function Deliver(ins: Instr, pc: int, regs: Registers, a: Answer): StepResult {
    match a
    case Returned(v, w) => Goto(State(pc, Write(ins, regs, v), w))
    case Signalled(v, w) => Done(Signal(v, w))
    case Never => Stuck
  }

  function Branch(m: Machine, ins: Instr, next: int, regs: Registers, world: World, taken: Value, other: Value): StepResult {
    var v := Get(regs, Arg(ins, 0));
    if v == taken then Goto(State(ins.target, regs, world))
    else if v == other then Goto(State(next, regs, world))
    else Done(Signal(v, world))
  }

  /** The primitive call of a primitive guard: the effect of the primitive on the guarded arguments. */
  function PrimitiveKey(index: Word): seq<Word> {
    [OP_INLINE_PRIMITIVE_CHECK, index]
  }

  function Step(m: Machine, ctx: Context, ins: Instr, next: int, regs: Registers, world: World): StepResult {
    var op := ins.op;
    if op == OP_JUMP_TO then Goto(State(ins.target, regs, world))
    else if op == OP_BRANCH_IF_TRUE then Branch(m, ins, next, regs, world, m.trueObject, m.falseObject)
    else if op == OP_BRANCH_IF_FALSE then Branch(m, ins, next, regs, world, m.falseObject, m.trueObject)
    else if op == OP_MOVE_REGISTER then Goto(State(next, regs[Arg(ins, 0) := Get(regs, Arg(ins, 1))], world))
    else if op == OP_LOAD_LITERAL then Goto(State(next, regs[Arg(ins, 0) := Literal(ins, 1)], world))
    else if op == OP_IS_NIL then
      Goto(State(next, regs[Arg(ins, 0) := if Get(regs, Arg(ins, 1)) == m.nil then m.trueObject else m.falseObject], world))
    else if op == OP_IS_IDENTICAL_TO then
      Goto(State(next, regs[Arg(ins, 0) := if Get(regs, Arg(ins, 1)) == Get(regs, Arg(ins, 2)) then m.trueObject else m.falseObject], world))
    else if IsVariableOp(op) then Goto(State(next, regs, world))
    else if op == OP_RETURN_REGISTER then Done(Return(Get(regs, Arg(ins, 0)), world))
    else if op == OP_RETURN_VALUE then Done(Return(Literal(ins, 0), world))
    else if op == OP_RETURN_FROM then Done(ReturnFrom(Get(regs, Arg(ins, 0)), Arg(ins, 1), world))
    else if op == OP_RESUME then Done(Resume(world))
    else if op == OP_INLINE_METHOD_CHECK then
      if MapsMatch(m, m.elements(Literal(ins, 0)), GuardArgs(ins, 3, regs), world)
      then Goto(State(next, regs, world)) else Goto(State(ins.target, regs, world))
    else if op == OP_INLINE_PRIMITIVE_CHECK then
      if MapsMatch(m, m.elements(Literal(ins, 1)), GuardArgs(ins, 5, regs), world)
      then Deliver(ins, ins.target, regs, m.effect(0, PrimitiveKey(Literal(ins, 2)), GuardArgs(ins, 5, regs), world))
      else Goto(State(next, regs, world))
    else if op == OP_BRANCH_KEYED then Stuck
    else Deliver(ins, next, regs, EffectOf(m, ctx, ins, regs, world))
  }

  function StepAt(m: Machine, ctx: Context, code: seq<Word>, s: State): StepResult {
    if Fits(code, s.pc) then Step(m, ctx, Fetch(code, s.pc), s.pc + Length(code, s.pc), s.regs, s.world) else Stuck
  }

  function Run(m: Machine, ctx: Context, code: seq<Word>, s: State, fuel: nat): Option<Outcome>
    decreases fuel
  {
    if fuel == 0 then None
    else match StepAt(m, ctx, code, s)
      case Done(o) => Some(o)
      case Stuck => None
      case Goto(s') => Run(m, ctx, code, s', fuel - 1)
  }

  /** The activation ends, with this outcome. */
  ghost predicate Ends(m: Machine, ctx: Context, code: seq<Word>, s: State, o: Outcome) {
    exists fuel: nat :: Run(m, ctx, code, s, fuel) == Some(o)
  }

  /** More fuel does not change how a run ends. */
  lemma {:induction false} MoreFuel(m: Machine, ctx: Context, code: seq<Word>, s: State, a: nat, b: nat)
    requires Run(m, ctx, code, s, a).Some? && a <= b
    ensures Run(m, ctx, code, s, b) == Run(m, ctx, code, s, a)
    decreases a
  {
    hide StepAt;
    match StepAt(m, ctx, code, s)
    case Goto(s') => MoreFuel(m, ctx, code, s', a - 1, b - 1);
    case _ =>
  }

  /** Two codes that no caller can tell apart: from frames that agree on the first n registers they end alike. */
  ghost predicate SameRuns(m: Machine, ctx: Context, code: seq<Word>, code': seq<Word>, n: int) {
    forall regs, regs', world, o | Agree(regs, regs', n) ::
      Ends(m, ctx, code, State(0, regs, world), o) <==> Ends(m, ctx, code', State(0, regs', world), o)
  }

  predicate Agree(regs: Registers, regs': Registers, n: int) {
    forall x | 0 <= x < n :: Get(regs, x) == Get(regs', x)
  }
}

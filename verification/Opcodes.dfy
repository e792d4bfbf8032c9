/** The instruction tables of the virtual machine and the layout of a flat code vector. */
module Opcodes {

  /** A machine word: a tagged small integer (odd) or the address of an object (even). */
  type Word = int

  function SmallintToObject(x: int): Word { 2 * x + 1 }

  /** The arithmetic right shift by one: it rounds towards minus infinity. */
  function ObjectToSmallint(w: Word): int { w / 2 }

  predicate IsSmallint(w: Word) { w % 2 == 1 }

  const OP_SEND := 1
  const OP_LOAD_LITERAL := 7
  const OP_SEND_MESSAGE_WITH_OPTS := 11
  const OP_NEW_CLOSURE := 15
  const OP_NEW_ARRAY_WITH := 17
  const OP_RESEND_MESSAGE := 19
  const OP_RETURN_FROM := 21
  const OP_LOAD_ENVIRONMENT := 23
  const OP_LOAD_VARIABLE := 25
  const OP_STORE_VARIABLE := 27
  const OP_LOAD_FREE_VARIABLE := 29
  const OP_STORE_FREE_VARIABLE := 31
  const OP_IS_IDENTICAL_TO := 33
  const OP_BRANCH_KEYED := 35
  const OP_JUMP_TO := 37
  const OP_MOVE_REGISTER := 39
  const OP_BRANCH_IF_TRUE := 41
  const OP_BRANCH_IF_FALSE := 43
  const OP_RETURN_REGISTER := 45
  const OP_RETURN_VALUE := 47
  const OP_RESUME := 49
  const OP_PRIMITIVE_DO := 51
  const OP_APPLY_TO := 53
  const OP_IS_NIL := 55
  const OP_INLINE_PRIMITIVE_CHECK := 57
  const OP_INLINE_METHOD_CHECK := 59
  const OP_SEND_WITH_OPTIONALS_INLINE := 61
  const OP_INTERNAL_SEND := 201

  /** The number of operands that every instruction with this opcode has; 0 for an unknown opcode. */
  function BaseLength(op: Word): nat {
    if op == OP_SEND || op == OP_INTERNAL_SEND then 3
    else if op == OP_SEND_MESSAGE_WITH_OPTS || op == OP_SEND_WITH_OPTIONALS_INLINE then 4
    else if op == OP_LOAD_FREE_VARIABLE || op == OP_STORE_FREE_VARIABLE || op == OP_IS_IDENTICAL_TO then 3
    else if op == OP_PRIMITIVE_DO || op == OP_APPLY_TO || op == OP_INLINE_METHOD_CHECK then 3
    else if op == OP_INLINE_PRIMITIVE_CHECK then 5
    else if op == OP_LOAD_LITERAL || op == OP_NEW_CLOSURE || op == OP_NEW_ARRAY_WITH then 2
    else if op == OP_RESEND_MESSAGE || op == OP_RETURN_FROM || op == OP_BRANCH_KEYED then 2
    else if op == OP_MOVE_REGISTER || op == OP_BRANCH_IF_TRUE || op == OP_BRANCH_IF_FALSE || op == OP_IS_NIL then 2
    else if op == OP_LOAD_ENVIRONMENT || op == OP_LOAD_VARIABLE || op == OP_STORE_VARIABLE then 1
    else if op == OP_JUMP_TO || op == OP_RETURN_REGISTER || op == OP_RETURN_VALUE then 1
    else 0
  }

  predicate KnownOp(op: Word) {
    BaseLength(op) > 0 || op == OP_RESUME
  }

  /** The number of further operands, which are always registers; the instruction itself says how many. */
  function ArgLength(code: seq<Word>, p: nat): int
    requires p < |code| && p + BaseLength(code[p]) < |code|
  {
    var op := code[p];
    if op == OP_SEND || op == OP_INTERNAL_SEND || op == OP_SEND_MESSAGE_WITH_OPTS then ObjectToSmallint(code[p + 3])
    else if op == OP_SEND_WITH_OPTIONALS_INLINE then ObjectToSmallint(code[p + 3]) + ObjectToSmallint(code[p + 4])
    else if op == OP_NEW_ARRAY_WITH || op == OP_PRIMITIVE_DO || op == OP_APPLY_TO then ObjectToSmallint(code[p + 2])
    else if op == OP_INLINE_PRIMITIVE_CHECK then ObjectToSmallint(code[p + 4])
    else if op == OP_INLINE_METHOD_CHECK then ObjectToSmallint(code[p + 2])
    else 0
  }

  function Length(code: seq<Word>, p: nat): int
    requires p < |code| && p + BaseLength(code[p]) < |code|
  {
    1 + BaseLength(code[p]) + ArgLength(code, p)
  }

  predicate CanJump(op: Word) {
    op == OP_JUMP_TO || op == OP_BRANCH_IF_FALSE || op == OP_BRANCH_IF_TRUE
    || op == OP_INLINE_PRIMITIVE_CHECK || op == OP_INLINE_METHOD_CHECK
  }

  /** Which operand, counted from the opcode, holds the relative jump. */
  function JumpParameter(op: Word): (r: nat)
    ensures CanJump(op) ==> 1 <= r <= BaseLength(op)
  {
    if op == OP_JUMP_TO then 1
    else if op == OP_BRANCH_IF_FALSE || op == OP_BRANCH_IF_TRUE then 2
    else if op == OP_INLINE_PRIMITIVE_CHECK then 5
    else if op == OP_INLINE_METHOD_CHECK then 3
    else 0
  }

  /** Plain jumps and branches count from one word before the end of the instruction. */
  function JumpAdjustment(op: Word): int {
    if op == OP_INLINE_PRIMITIVE_CHECK || op == OP_INLINE_METHOD_CHECK then 0 else -1
  }

  /** Bit k is set when operand k is a register. */
  function RegisterLocations(op: Word): nat {
    if op == OP_SEND_MESSAGE_WITH_OPTS then 1 + 8
    else if op == OP_STORE_FREE_VARIABLE then 4
    else if op == OP_IS_IDENTICAL_TO then 1 + 2 + 4
    else if op == OP_BRANCH_KEYED || op == OP_MOVE_REGISTER || op == OP_IS_NIL then 1 + 2
    else if op == OP_PRIMITIVE_DO || op == OP_APPLY_TO then 1 + 4
    else if op == OP_JUMP_TO || op == OP_RETURN_VALUE || op == OP_RESUME || op == OP_INLINE_METHOD_CHECK then 0
    else if KnownOp(op) then 1
    else 0
  }

  /** Bit k of a mask below 16. */
  predicate Bit(mask: nat, k: nat) {
    if k == 0 then mask % 2 == 1
    else if k == 1 then mask / 2 % 2 == 1
    else if k == 2 then mask / 4 % 2 == 1
    else k == 3 && mask / 8 % 2 == 1
  }

  // ---------- what the interpreter does with the operands ----------

  /**
   * An operand as the interpreter's own case for the opcode takes it: a register that is written or read, the register of a
   * variable, a number of further operands, a relative jump, an object, or a plain number.
   */
  datatype Operand = Dest | Source | Variable | Count | Jump | Object | Number

  /** The operands that the interpreter's case takes, in order. Those it counts come after them, and are registers it reads. */
  function Operands(op: Word): (r: seq<Operand>)
    ensures |r| == BaseLength(op)
  {
    if op == OP_SEND || op == OP_INTERNAL_SEND then [Dest, Object, Count]
    else if op == OP_SEND_MESSAGE_WITH_OPTS then [Dest, Object, Count, Source]
    else if op == OP_SEND_WITH_OPTIONALS_INLINE then [Dest, Object, Count, Count]
    else if op == OP_NEW_ARRAY_WITH then [Dest, Count]
    else if op == OP_NEW_CLOSURE then [Dest, Object]
    else if op == OP_LOAD_LITERAL then [Dest, Object]
    else if op == OP_RESEND_MESSAGE then [Dest, Number]
    else if op == OP_LOAD_VARIABLE then [Variable]
    else if op == OP_STORE_VARIABLE then [Variable]
    else if op == OP_LOAD_FREE_VARIABLE then [Dest, Number, Number]
    else if op == OP_STORE_FREE_VARIABLE then [Number, Number, Source]
    else if op == OP_MOVE_REGISTER then [Dest, Source]
    else if op == OP_IS_NIL then [Dest, Source]
    else if op == OP_IS_IDENTICAL_TO then [Dest, Source, Source]
    else if op == OP_BRANCH_KEYED then [Source, Source]
    else if op == OP_BRANCH_IF_TRUE then [Source, Jump]
    else if op == OP_BRANCH_IF_FALSE then [Source, Jump]
    else if op == OP_JUMP_TO then [Jump]
    else if op == OP_LOAD_ENVIRONMENT then [Dest]
    else if op == OP_RETURN_REGISTER then [Source]
    else if op == OP_RETURN_FROM then [Source, Number]
    else if op == OP_RETURN_VALUE then [Object]
    else if op == OP_PRIMITIVE_DO then [Source, Count, Dest]
    else if op == OP_INLINE_PRIMITIVE_CHECK then [Dest, Object, Number, Count, Jump]
    else if op == OP_INLINE_METHOD_CHECK then [Object, Count, Jump]
    else if op == OP_APPLY_TO then [Source, Count, Dest]
    else []
  }

  predicate NamesRegister(o: Operand) {
    o == Dest || o == Source || o == Variable
  }

  /** Operand k (counted from 0) of an instruction names a register. */
  predicate IsRegisterOperand(op: Word, k: nat) {
    BaseLength(op) <= k || NamesRegister(Operands(op)[k])
  }

  /** The register mask has exactly the operands that the interpreter takes for registers. */
  lemma MaskIsRegisters(op: Word, k: nat)
    ensures RegisterLocations(op) < 16
    ensures IsRegisterOperand(op, k) <==> Bit(RegisterLocations(op), k) || BaseLength(op) <= k
    ensures KnownOp(op) && Bit(RegisterLocations(op), k) ==> k < BaseLength(op)
  {
  }

  /** So has the table of jumps exactly the one that the interpreter jumps by. */
  lemma JumpIsParameter(op: Word, k: nat)
    requires k < BaseLength(op)
    ensures Operands(op)[k] == Jump <==> CanJump(op) && k == JumpParameter(op) - 1
  {
  }

  /** The sum of the counts among the operands from k on. */
  function Counted(code: seq<Word>, p: nat, k: nat): int
    requires p < |code| && p + BaseLength(code[p]) < |code|
    decreases BaseLength(code[p]) - k
  {
    if k >= BaseLength(code[p]) then 0
    else (if Operands(code[p])[k] == Count then ObjectToSmallint(code[p + 1 + k]) else 0) + Counted(code, p, k + 1)
  }

  /** And the table of lengths has as many further operands as the interpreter takes. */
  lemma LengthIsCounted(code: seq<Word>, p: nat)
    requires p < |code| && p + BaseLength(code[p]) < |code|
    ensures ArgLength(code, p) == Counted(code, p, 0)
  {
    var n := BaseLength(code[p]);
    assert n <= 5;
    assert Counted(code, p, 5) == 0;
    assert Counted(code, p, 4) == 0;
    assert Counted(code, p, 3) == (if 3 < n && Operands(code[p])[3] == Count then ObjectToSmallint(code[p + 4]) else 0) + Counted(code, p, 4);
    assert Counted(code, p, 2) == (if 2 < n && Operands(code[p])[2] == Count then ObjectToSmallint(code[p + 3]) else 0) + Counted(code, p, 3);
    assert Counted(code, p, 1) == (if 1 < n && Operands(code[p])[1] == Count then ObjectToSmallint(code[p + 2]) else 0) + Counted(code, p, 2);
  }

  /** No count or jump is a register. */
  lemma MaskedOperands(op: Word, k: nat)
    requires KnownOp(op)
    ensures RegisterLocations(op) < 16
    ensures Bit(RegisterLocations(op), k) ==> k < 6 && k < BaseLength(op) && (CanJump(op) ==> k != JumpParameter(op) - 1)
    ensures CanJump(op) ==> 1 <= JumpParameter(op) <= BaseLength(op)
    ensures CanJump(op) ==> !IsRegisterOperand(op, JumpParameter(op) - 1)
  {
  }

  // ---------- layout: where the instructions of a flat vector start ----------

  /** A whole instruction with a known opcode starts at p. */
  predicate Fits(code: seq<Word>, p: int) {
    0 <= p < |code| && KnownOp(code[p]) && p + BaseLength(code[p]) < |code|
    && ArgLength(code, p) >= 0 && p + Length(code, p) <= |code|
  }

  /** The words from a up to b are exactly a sequence of whole instructions. */
  predicate Tiled(code: seq<Word>, a: int, b: int)
    decreases b - a
  {
    0 <= a <= b <= |code|
    && (a == b || (Fits(code, a) && a + Length(code, a) <= b && Tiled(code, a + Length(code, a), b)))
  }

  /** p is where an instruction starts, or the end of the code. */
  predicate Boundary(code: seq<Word>, p: int) {
    Tiled(code, 0, p)
  }

  /** One instruction, taken out of the vector: its jump operand is replaced by the absolute target. */
  datatype Instr = Instr(op: Word, args: seq<Word>, target: int)

  function Target(code: seq<Word>, p: int): int
    requires Fits(code, p) && CanJump(code[p])
  {
    p + Length(code, p) + ObjectToSmallint(code[p + JumpParameter(code[p])]) + JumpAdjustment(code[p])
  }

  function Fetch(code: seq<Word>, p: int): Instr
    requires Fits(code, p)
  {
    var op := code[p];
    var args := code[p + 1..p + Length(code, p)];
    if CanJump(op) then Instr(op, args[JumpParameter(op) - 1 := 0], Target(code, p)) else Instr(op, args, 0)
  }

  function Retarget(ins: Instr, t: int): Instr {
    if CanJump(ins.op) then ins.(target := t) else ins
  }

  // ---------- layout lemmas ----------

  lemma {:induction false} TiledConcat(code: seq<Word>, a: int, b: int, d: int)
    requires Tiled(code, a, b) && Tiled(code, b, d)
    ensures Tiled(code, a, d)
    decreases b - a
  {
    if a < b {
      TiledConcat(code, a + Length(code, a), b, d);
    }
  }

  /** Two tilings with the same start agree: the longer one continues where the shorter one stops. */
  lemma {:induction false} TiledRest(code: seq<Word>, a: int, b: int, d: int)
    requires Tiled(code, a, b) && Tiled(code, a, d) && b <= d
    ensures Tiled(code, b, d)
    decreases b - a
  {
    if a < b {
      TiledRest(code, a + Length(code, a), b, d);
    }
  }

  /** Instructions do not overlap. */
  lemma InstructionEnds(code: seq<Word>, p: int, q: int)
    requires Boundary(code, p) && Boundary(code, q) && p < q
    ensures Fits(code, p) && p + Length(code, p) <= q && Boundary(code, p + Length(code, p))
  {
    TiledRest(code, 0, p, q);
    assert Tiled(code, p + Length(code, p), p + Length(code, p));
    TiledConcat(code, 0, p, p + Length(code, p));
  }

  /** An instruction is determined by its own words. */
  lemma SameWords(c: seq<Word>, p: int, c': seq<Word>, p': int)
    requires Fits(c, p) && 0 <= p' && p' + Length(c, p) <= |c'|
    requires c'[p'..p' + Length(c, p)] == c[p..p + Length(c, p)]
    ensures Fits(c', p') && Length(c', p') == Length(c, p)
    ensures Fetch(c', p') == Retarget(Fetch(c, p), Fetch(c, p).target + p' - p)
  {
    var n := Length(c, p);
    var w := c[p..p + n];
    assert forall k | 0 <= k < n :: w[k] == c[p + k] && w[k] == c'[p' + k] by {
      assert c'[p'..p' + n] == w;
    }
    assert c[p] == w[0] && c'[p'] == w[0];
    assert c'[p' + 1..p' + n] == w[1..] == c[p + 1..p + n];
  }

  /** A tiling moves with the words it is about. */
  lemma {:induction false} TiledMove(c: seq<Word>, a: int, b: int, c': seq<Word>, d: int)
    requires Tiled(c, a, b) && 0 <= a + d && b + d <= |c'|
    requires c'[a + d..b + d] == c[a..b]
    ensures Tiled(c', a + d, b + d)
    decreases b - a
  {
    if a < b {
      var n := Length(c, a);
      assert c'[a + d..a + d + n] == c'[a + d..b + d][..n] == c[a..b][..n] == c[a..a + n];
      assert c'[a + d + n..b + d] == c'[a + d..b + d][n..] == c[a..b][n..] == c[a + n..b];
      SameWords(c, a, c', a + d);
      TiledMove(c, a + n, b, c', d);
    }
  }
}
